/** The token loop accepts every well-formed structured program and places its fragments as the
    structure calls for, wherever in the source the program stands. */
module Placement {
  import opened Common
  import opened Fragments
  import opened FrontEnd
  import opened Grammar

  /** b continues a: nothing placed or created before has moved or changed, except for the flags
      of word locations. */
  ghost predicate Extends(a: Code, b: Code) {
    && a.order <= b.order && a.words <= b.words && |a.frags| <= |b.frags|
    && forall i :: 0 <= i < |a.frags| ==>
         b.frags[i].op == a.frags[i].op && b.frags[i].param == a.frags[i].param
             && b.frags[i].isWord == a.frags[i].isWord
  }

  lemma {:induction false} ExtendsTransitive(a: Code, b: Code, c: Code)
    requires Extends(a, b) && Extends(b, c)
    ensures Extends(a, c)
  {
  }

  lemma {:induction false} PlacedExtends(a: Code, b: Code, cur: int, s: Stmt, n: nat, lo: nat)
    requires Extends(a, b) && Placed(a, cur, s, n, lo)
    requires n + Size(s) <= |a.frags| && lo + Size(s) <= |a.order|
    ensures Placed(b, cur, s, n, lo)
  {
    assert Moved(a, b, n, lo, lo, Size(s)) by {
      hide Placed, Size;
    }
    hide Moved, Extends, Placed;
    PlacedMoves(a, b, cur, s, n, lo, lo);
  }

  lemma {:induction false} AtExtends(a: Code, b: Code, k: nat, id: nat, op: Opcode, param: int)
    requires Extends(a, b) && At(a, k, id, op, param)
    ensures At(b, k, id, op, param)
  {
  }

  /** The state grew: fragments placed are not older than `base`, and what was created belongs
      to the code being compiled. */
  ghost predicate Grew(st: State, s1: State, base: nat) {
    && Extends(CodeOf(st), CodeOf(s1))
    && s1.defining == st.defining && s1.words == st.words
    && (forall i :: |st.frags| <= i < |s1.frags| ==> s1.frags[i].isWord == st.defining)
    && (forall k :: |st.sequence| <= k < |s1.sequence| ==> base <= s1.sequence[k] < |s1.frags|)
  }

  /** By how many fragments and places it grew. */
  ghost predicate Sized(st: State, s1: State, created: nat, placed: nat) {
    |s1.frags| == |st.frags| + created && |s1.sequence| == |st.sequence| + placed
  }

  lemma {:induction false} GrewTwice(st: State, s1: State, s2: State, b1: nat, b2: nat, base: nat)
    requires Grew(st, s1, b1) && Grew(s1, s2, b2) && base <= b1 && base <= b2
    ensures Grew(st, s2, base)
  {
    ExtendsTransitive(CodeOf(st), CodeOf(s1), CodeOf(s2));
    forall i | |st.frags| <= i < |s2.frags| ensures s2.frags[i].isWord == st.defining {
      if i < |s1.frags| { assert s2.frags[i].isWord == s1.frags[i].isWord; }
    }
    forall k | |st.sequence| <= k < |s2.sequence| ensures base <= s2.sequence[k] < |s2.frags| {
      if k < |s1.sequence| { assert s2.sequence[k] == s1.sequence[k]; }
    }
  }

  ghost predicate Ready(st: State) {
    st.defining ==> st.words != [] && Current(st) < |st.frags|
  }

  // ----- what each token does -----

  lemma {:induction false} EmitGrows(st: State, op: Opcode, param: int)
    ensures var s1 := Emit(st, op, param);
      && s1.cf == st.cf && Grew(st, s1, |st.frags|) && Sized(st, s1, 1, 1)
      && At(CodeOf(s1), |st.sequence|, |st.frags|, op, param)
  {
  }

  lemma {:induction false} ForwardStep(lr: Option<Opcode -> bool>, st: State, t: Token) returns (s1: State)
    requires t.If? || (t.While? && st.cf != [] && Top(st).kind.CfBegin?)
    ensures StepToken(lr, st, t) == Ok(s1)
    ensures s1.cf == st.cf + [ControlFlow(if t.If? then CfIf else CfWhile, |st.frags|)]
    ensures Grew(st, s1, |st.frags|) && Sized(st, s1, 2, 1)
    ensures At(CodeOf(s1), |st.sequence|, |st.frags| + 1, BranchIfZero, |st.frags|)
    ensures IsLoc(s1, |st.frags|)
  {
    s1 := StepToken(lr, st, t).value;
  }

  ghost predicate IsLoc(st: State, id: nat) {
    id < |st.frags| && st.frags[id].op == BranchLocation && st.frags[id].param == -1
  }

  lemma {:induction false} LocGrows(st: State, s1: State, base: nat, id: nat)
    requires Grew(st, s1, base) && IsLoc(st, id)
    ensures IsLoc(s1, id)
  {
  }

  lemma {:induction false} BeginStep(lr: Option<Opcode -> bool>, st: State) returns (s1: State)
    ensures StepToken(lr, st, Begin) == Ok(s1)
    ensures s1.cf == st.cf + [ControlFlow(CfBegin, |st.frags|)]
    ensures Grew(st, s1, |st.frags|) && Sized(st, s1, 1, 1)
    ensures At(CodeOf(s1), |st.sequence|, |st.frags|, BranchLocation, -1)
  {
    s1 := StepToken(lr, st, Begin).value;
  }

  lemma {:induction false} DoStep(lr: Option<Opcode -> bool>, st: State) returns (s1: State)
    ensures StepToken(lr, st, DoWord) == Ok(s1)
    ensures s1.cf == st.cf + [ControlFlow(CfDo, |st.frags| + 1)]
    ensures Grew(st, s1, |st.frags|) && Sized(st, s1, 2, 2)
    ensures At(CodeOf(s1), |st.sequence|, |st.frags|, Do, -1)
    ensures At(CodeOf(s1), |st.sequence| + 1, |st.frags| + 1, BranchLocation, -1)
  {
    s1 := StepToken(lr, st, DoWord).value;
  }

  lemma {:induction false} ThenStep(lr: Option<Opcode -> bool>, st: State, low: seq<ControlFlow>, base: nat)
      returns (s1: State)
    requires st.cf == low + [TopEntry(st)] && (TopEntry(st).kind.CfIf? || TopEntry(st).kind.CfElse?)
    requires IsLoc(st, TopEntry(st).fragment) && base <= TopEntry(st).fragment
    ensures StepToken(lr, st, Then) == Ok(s1)
    ensures s1.cf == low
    ensures Grew(st, s1, base) && Sized(st, s1, 0, 1)
    ensures At(CodeOf(s1), |st.sequence|, TopEntry(st).fragment, BranchLocation, -1)
  {
    s1 := StepToken(lr, st, Then).value;
  }

  function TopEntry(st: State): ControlFlow {
    if st.cf == [] then ControlFlow(CfBegin, 0) else Top(st)
  }

  lemma {:induction false} TopOf(st: State, low: seq<ControlFlow>, e: ControlFlow)
    requires st.cf == low + [e]
    ensures TopEntry(st) == e
  {
  }

  lemma {:induction false} ElseStep(lr: Option<Opcode -> bool>, st: State, low: seq<ControlFlow>, base: nat)
      returns (s1: State)
    requires st.cf == low + [TopEntry(st)] && TopEntry(st).kind.CfIf?
    requires IsLoc(st, TopEntry(st).fragment) && base <= TopEntry(st).fragment
    ensures StepToken(lr, st, Else) == Ok(s1)
    ensures s1.cf == low + [ControlFlow(CfElse, |st.frags|)]
    ensures Grew(st, s1, base) && Sized(st, s1, 2, 2)
    ensures At(CodeOf(s1), |st.sequence|, |st.frags| + 1, Branch, |st.frags|)
    ensures At(CodeOf(s1), |st.sequence| + 1, TopEntry(st).fragment, BranchLocation, -1)
    ensures IsLoc(s1, |st.frags|)
  {
    s1 := StepToken(lr, st, Else).value;
  }

  lemma {:induction false} BackwardStep(lr: Option<Opcode -> bool>, st: State, low: seq<ControlFlow>, t: Token)
      returns (s1: State)
    requires st.cf == low + [TopEntry(st)]
    requires if t.LoopWord? then TopEntry(st).kind.CfDo? else (t.Until? || t.Again?) && TopEntry(st).kind.CfBegin?
    ensures StepToken(lr, st, t) == Ok(s1)
    ensures s1.cf == low
    ensures Grew(st, s1, |st.frags|) && Sized(st, s1, 1, 1)
    ensures var op := if t.LoopWord? then Loop else if t.Until? then BranchIfZero else Branch;
      At(CodeOf(s1), |st.sequence|, |st.frags|, op, TopEntry(st).fragment)
  {
    s1 := StepToken(lr, st, t).value;
  }

  lemma {:induction false} RepeatStep(lr: Option<Opcode -> bool>, st: State, low: seq<ControlFlow>, b: nat, w: nat,
      base: nat) returns (s1: State)
    requires st.cf == low + [ControlFlow(CfBegin, b)] + [ControlFlow(CfWhile, w)]
    requires IsLoc(st, w) && base <= w && base <= |st.frags|
    ensures StepToken(lr, st, Repeat) == Ok(s1)
    ensures s1.cf == low
    ensures Grew(st, s1, base) && Sized(st, s1, 1, 2)
    ensures At(CodeOf(s1), |st.sequence|, |st.frags|, Branch, b)
    ensures At(CodeOf(s1), |st.sequence| + 1, w, BranchLocation, -1)
  {
    s1 := StepToken(lr, st, Repeat).value;
  }

  lemma {:induction false} ExitStep(lr: Option<Opcode -> bool>, st: State) returns (s1: State)
    requires st.defining && Ready(st)
    ensures StepToken(lr, st, Exit) == Ok(s1)
    ensures s1.cf == st.cf && Grew(st, s1, |st.frags|) && Sized(st, s1, 1, 1)
    ensures At(CodeOf(s1), |st.sequence|, |st.frags|, ExitWord, Current(st))
  {
    hide ScanBack, OpenLoops;
    s1 := StepToken(lr, st, Exit).value;
  }

  // ----- putting the pieces together -----

  /** Code placed at one state is still placed at a later one. */
  lemma {:induction false} StaysPlaced(a: State, b: State, base: nat, cur: int, s: Stmt, n: nat, lo: nat)
    requires Grew(a, b, base) && Placed(CodeOf(a), cur, s, n, lo)
    requires n + Size(s) <= |a.frags| && lo + Size(s) <= |a.sequence|
    ensures Placed(CodeOf(b), cur, s, n, lo)
  {
    hide Placed, Size, Extends;
    PlacedExtends(CodeOf(a), CodeOf(b), cur, s, n, lo);
  }

  lemma {:induction false} StaysAt(a: State, b: State, base: nat, k: nat, id: nat, op: Opcode, param: int)
    requires Grew(a, b, base) && At(CodeOf(a), k, id, op, param)
    ensures At(CodeOf(b), k, id, op, param)
  {
    hide Extends, At;
    AtExtends(CodeOf(a), CodeOf(b), k, id, op, param);
  }

  lemma {:induction false} IfThenPlaced(st: State, s1: State, s2: State, s3: State, cur: int, b: Stmt)
    requires var n, lo := |st.frags|, |st.sequence|;
      && Grew(st, s1, n) && Sized(st, s1, 2, 1)
      && Grew(s1, s2, |s1.frags|) && Sized(s1, s2, Size(b), Size(b))
      && Grew(s2, s3, n) && Sized(s2, s3, 0, 1)
      && At(CodeOf(s1), lo, n + 1, BranchIfZero, n)
      && Placed(CodeOf(s2), cur, b, |s1.frags|, |s1.sequence|)
      && At(CodeOf(s3), |s2.sequence|, n, BranchLocation, -1)
    ensures Grew(st, s3, |st.frags|) && Sized(st, s3, Size(b) + 2, Size(b) + 2)
    ensures PlacedIfThen(CodeOf(s3), cur, b, |st.frags|, |st.sequence|)
  {
    var n, lo := |st.frags|, |st.sequence|;
    hide Placed, Size, Grew, At;
    GrewTwice(s1, s2, s3, |s1.frags|, n, n);
    GrewTwice(st, s1, s3, n, n, n);
    StaysAt(s1, s3, n, lo, n + 1, BranchIfZero, n);
    StaysPlaced(s2, s3, n, cur, b, |s1.frags|, |s1.sequence|);
  }

  lemma {:induction false} IfElsePlaced(st: State, s1: State, s2: State, s3: State, s4: State, s5: State, cur: int,
      a: Stmt, b: Stmt)
    requires var n, lo := |st.frags|, |st.sequence|;
      && Grew(st, s1, n) && Sized(st, s1, 2, 1)
      && Grew(s1, s2, |s1.frags|) && Sized(s1, s2, Size(a), Size(a))
      && Grew(s2, s3, n) && Sized(s2, s3, 2, 2)
      && Grew(s3, s4, |s3.frags|) && Sized(s3, s4, Size(b), Size(b))
      && Grew(s4, s5, n) && Sized(s4, s5, 0, 1)
      && At(CodeOf(s1), lo, n + 1, BranchIfZero, n)
      && Placed(CodeOf(s2), cur, a, |s1.frags|, |s1.sequence|)
      && At(CodeOf(s3), |s2.sequence|, |s2.frags| + 1, Branch, |s2.frags|)
      && At(CodeOf(s3), |s2.sequence| + 1, n, BranchLocation, -1)
      && Placed(CodeOf(s4), cur, b, |s3.frags|, |s3.sequence|)
      && At(CodeOf(s5), |s4.sequence|, |s2.frags|, BranchLocation, -1)
    ensures Grew(st, s5, |st.frags|) && Sized(st, s5, Size(a) + Size(b) + 4, Size(a) + Size(b) + 4)
    ensures PlacedIfElse(CodeOf(s5), cur, a, b, |st.frags|, |st.sequence|)
  {
    var n, lo := |st.frags|, |st.sequence|;
    hide Placed, Size, Grew, At;
    GrewTwice(s3, s4, s5, |s3.frags|, n, n);
    GrewTwice(s2, s3, s5, n, n, n);
    GrewTwice(s1, s2, s5, |s1.frags|, n, n);
    GrewTwice(st, s1, s5, n, n, n);
    StaysAt(s1, s5, n, lo, n + 1, BranchIfZero, n);
    StaysPlaced(s2, s5, n, cur, a, |s1.frags|, |s1.sequence|);
    StaysAt(s3, s5, n, |s2.sequence|, |s2.frags| + 1, Branch, |s2.frags|);
    StaysAt(s3, s5, n, |s2.sequence| + 1, n, BranchLocation, -1);
    StaysPlaced(s4, s5, n, cur, b, |s3.frags|, |s3.sequence|);
  }

  lemma {:induction false} BeginUntilPlaced(st: State, s1: State, s2: State, s3: State, cur: int, b: Stmt)
    requires var n, lo := |st.frags|, |st.sequence|;
      && Grew(st, s1, n) && Sized(st, s1, 1, 1)
      && Grew(s1, s2, |s1.frags|) && Sized(s1, s2, Size(b), Size(b))
      && Grew(s2, s3, |s2.frags|) && Sized(s2, s3, 1, 1)
      && At(CodeOf(s1), lo, n, BranchLocation, -1)
      && Placed(CodeOf(s2), cur, b, |s1.frags|, |s1.sequence|)
      && At(CodeOf(s3), |s2.sequence|, |s2.frags|, BranchIfZero, n)
    ensures Grew(st, s3, |st.frags|) && Sized(st, s3, Size(b) + 2, Size(b) + 2)
    ensures PlacedBeginUntil(CodeOf(s3), cur, b, |st.frags|, |st.sequence|)
  {
    var n, lo := |st.frags|, |st.sequence|;
    hide Placed, Size, Grew, At;
    GrewTwice(s1, s2, s3, |s1.frags|, |s2.frags|, n);
    GrewTwice(st, s1, s3, n, n, n);
    StaysAt(s1, s3, n, lo, n, BranchLocation, -1);
    StaysPlaced(s2, s3, |s2.frags|, cur, b, |s1.frags|, |s1.sequence|);
  }

  lemma {:induction false} BeginAgainPlaced(st: State, s1: State, s2: State, s3: State, cur: int, b: Stmt)
    requires var n, lo := |st.frags|, |st.sequence|;
      && Grew(st, s1, n) && Sized(st, s1, 1, 1)
      && Grew(s1, s2, |s1.frags|) && Sized(s1, s2, Size(b), Size(b))
      && Grew(s2, s3, |s2.frags|) && Sized(s2, s3, 1, 1)
      && At(CodeOf(s1), lo, n, BranchLocation, -1)
      && Placed(CodeOf(s2), cur, b, |s1.frags|, |s1.sequence|)
      && At(CodeOf(s3), |s2.sequence|, |s2.frags|, Branch, n)
    ensures Grew(st, s3, |st.frags|) && Sized(st, s3, Size(b) + 2, Size(b) + 2)
    ensures PlacedBeginAgain(CodeOf(s3), cur, b, |st.frags|, |st.sequence|)
  {
    var n, lo := |st.frags|, |st.sequence|;
    hide Placed, Size, Grew, At;
    GrewTwice(s1, s2, s3, |s1.frags|, |s2.frags|, n);
    GrewTwice(st, s1, s3, n, n, n);
    StaysAt(s1, s3, n, lo, n, BranchLocation, -1);
    StaysPlaced(s2, s3, |s2.frags|, cur, b, |s1.frags|, |s1.sequence|);
  }

  lemma {:induction false} BeginWhilePlaced(st: State, s1: State, s2: State, s3: State, s4: State, s5: State,
      cur: int, d: Stmt, b: Stmt)
    requires var n, lo := |st.frags|, |st.sequence|;
      && Grew(st, s1, n) && Sized(st, s1, 1, 1)
      && Grew(s1, s2, |s1.frags|) && Sized(s1, s2, Size(d), Size(d))
      && Grew(s2, s3, |s2.frags|) && Sized(s2, s3, 2, 1)
      && Grew(s3, s4, |s3.frags|) && Sized(s3, s4, Size(b), Size(b))
      && Grew(s4, s5, n) && Sized(s4, s5, 1, 2)
      && At(CodeOf(s1), lo, n, BranchLocation, -1)
      && Placed(CodeOf(s2), cur, d, |s1.frags|, |s1.sequence|)
      && At(CodeOf(s3), |s2.sequence|, |s2.frags| + 1, BranchIfZero, |s2.frags|)
      && Placed(CodeOf(s4), cur, b, |s3.frags|, |s3.sequence|)
      && At(CodeOf(s5), |s4.sequence|, |s4.frags|, Branch, n)
      && At(CodeOf(s5), |s4.sequence| + 1, |s2.frags|, BranchLocation, -1)
    ensures Grew(st, s5, |st.frags|) && Sized(st, s5, Size(d) + Size(b) + 4, Size(d) + Size(b) + 4)
    ensures PlacedBeginWhile(CodeOf(s5), cur, d, b, |st.frags|, |st.sequence|)
  {
    var n, lo := |st.frags|, |st.sequence|;
    hide Placed, Size, Grew, At;
    GrewTwice(s3, s4, s5, |s3.frags|, n, n);
    GrewTwice(s2, s3, s5, |s2.frags|, n, n);
    GrewTwice(s1, s2, s5, |s1.frags|, n, n);
    GrewTwice(st, s1, s5, n, n, n);
    StaysAt(s1, s5, n, lo, n, BranchLocation, -1);
    StaysPlaced(s2, s5, n, cur, d, |s1.frags|, |s1.sequence|);
    StaysAt(s3, s5, n, |s2.sequence|, |s2.frags| + 1, BranchIfZero, |s2.frags|);
    StaysPlaced(s4, s5, n, cur, b, |s3.frags|, |s3.sequence|);
  }

  lemma {:induction false} DoLoopPlaced(st: State, s1: State, s2: State, s3: State, cur: int, b: Stmt)
    requires var n, lo := |st.frags|, |st.sequence|;
      && Grew(st, s1, n) && Sized(st, s1, 2, 2)
      && Grew(s1, s2, |s1.frags|) && Sized(s1, s2, Size(b), Size(b))
      && Grew(s2, s3, |s2.frags|) && Sized(s2, s3, 1, 1)
      && At(CodeOf(s1), lo, n, Do, -1)
      && At(CodeOf(s1), lo + 1, n + 1, BranchLocation, -1)
      && Placed(CodeOf(s2), cur, b, |s1.frags|, |s1.sequence|)
      && At(CodeOf(s3), |s2.sequence|, |s2.frags|, Loop, n + 1)
    ensures Grew(st, s3, |st.frags|) && Sized(st, s3, Size(b) + 3, Size(b) + 3)
    ensures PlacedDoLoop(CodeOf(s3), cur, b, |st.frags|, |st.sequence|)
  {
    var n, lo := |st.frags|, |st.sequence|;
    hide Placed, Size, Grew, At;
    GrewTwice(s1, s2, s3, |s1.frags|, |s2.frags|, n);
    GrewTwice(st, s1, s3, n, n, n);
    StaysAt(s1, s3, n, lo, n, Do, -1);
    StaysAt(s1, s3, n, lo + 1, n + 1, BranchLocation, -1);
    StaysPlaced(s2, s3, |s2.frags|, cur, b, |s1.frags|, |s1.sequence|);
  }

  // ----- compiling a structured program -----

  lemma {:induction false} RunOne(lr: Option<Opcode -> bool>, st: State, t: Token, rest: seq<Token>, s1: State)
    requires StepToken(lr, st, t) == Ok(s1)
    ensures RunTokens(lr, st, [t] + rest) == RunTokens(lr, s1, rest)
  {
    assert ([t] + rest)[1..] == rest;
    hide StepToken;
  }

  /** What one accepted token that emits a single fragment does. */
  lemma {:induction false} EmitRuns(lr: Option<Opcode -> bool>, st: State, t: Token, op: Opcode, param: int,
      rest: seq<Token>) returns (s1: State)
    requires StepToken(lr, st, t) == Ok(Emit(st, op, param))
    ensures RunTokens(lr, st, [t] + rest) == RunTokens(lr, s1, rest)
    ensures s1.cf == st.cf && Grew(st, s1, |st.frags|) && Sized(st, s1, 1, 1)
    ensures At(CodeOf(s1), |st.sequence|, |st.frags|, op, param)
  {
    s1 := Emit(st, op, param);
    hide StepToken;
    RunOne(lr, st, t, rest, s1);
    EmitGrows(st, op, param);
  }

  lemma {:induction false} OpenLoopsPush(cf: seq<ControlFlow>, e: ControlFlow)
    ensures OpenLoops(cf + [e]) == OpenLoops(cf) + if e.kind.CfDo? then 1 else 0
  {
    assert (cf + [e])[..|cf|] == cf;
  }

  /** The conditions under which the text of s is accepted from st. */
  ghost predicate Acceptable(st: State, s: Stmt) {
    Ready(st) && WellFormed(s, st.defining, |st.words|, OpenLoops(st.cf))
  }

  /** s1 is st with s compiled. */
  ghost predicate CompiledTo(st: State, s1: State, s: Stmt) {
    && s1.cf == st.cf && Grew(st, s1, |st.frags|) && Sized(st, s1, Size(s), Size(s))
    && Placed(CodeOf(s1), |st.words| - 1, s, |st.frags|, |st.sequence|)
  }

  lemma {:induction false} StillAcceptable(st: State, s1: State, base: nat, s: Stmt)
    requires Grew(st, s1, base) && Ready(st) && WellFormed(s, st.defining, |st.words|, OpenLoops(s1.cf))
    ensures Acceptable(s1, s)
  {
    hide WellFormed, OpenLoops, Extends;
    assert |st.frags| <= |s1.frags| by {
      assert Extends(CodeOf(st), CodeOf(s1));
      ExtendsGrows(CodeOf(st), CodeOf(s1));
    }
  }

  lemma {:induction false} ExtendsGrows(a: Code, b: Code)
    requires Extends(a, b)
    ensures |a.frags| <= |b.frags|
  {
  }

  lemma {:induction false} AtomCompiles(lr: Option<Opcode -> bool>, st: State, s: Stmt, rest: seq<Token>)
      returns (s1: State)
    requires s.Empty? || s.Unlooped? || s.Prim? || s.Call? || s.TickWord? || s.SelfCall? || s.Leave?
    requires Acceptable(st, s)
    ensures RunTokens(lr, st, Text(s, rest)) == RunTokens(lr, s1, rest) && CompiledTo(st, s1, s)
  {
    match s
    case Empty => s1 := st;
    case Unlooped =>
      s1 := st;
      RunOne(lr, st, Unloop, rest, st);
    case Prim(op, param) => s1 := EmitRuns(lr, st, Plain(op, param), op, param, rest);
    case Call(k) => s1 := EmitRuns(lr, st, CallWord(k), DefinedWord, st.words[k], rest);
    case TickWord(k) => s1 := EmitRuns(lr, st, Tick(k), PushOffsetAddress, st.words[k], rest);
    case SelfCall => s1 := EmitRuns(lr, st, Recurse, DefinedWord, Current(st), rest);
    case Leave =>
      s1 := ExitStep(lr, st);
      RunOne(lr, st, Exit, rest, s1);
  }

  lemma {:induction false} SameWords(st: State, s1: State, base: nat)
    requires Grew(st, s1, base)
    ensures s1.words == st.words && s1.defining == st.defining
  {
  }

  lemma {:induction false} ChainPlaced(st: State, s1: State, s2: State, cur: int, a: Stmt, b: Stmt)
    requires Grew(st, s1, |st.frags|) && Sized(st, s1, Size(a), Size(a))
    requires Grew(s1, s2, |s1.frags|) && Sized(s1, s2, Size(b), Size(b))
    requires Placed(CodeOf(s1), cur, a, |st.frags|, |st.sequence|)
    requires Placed(CodeOf(s2), cur, b, |s1.frags|, |s1.sequence|)
    ensures Grew(st, s2, |st.frags|) && Sized(st, s2, Size(Chain(a, b)), Size(Chain(a, b)))
    ensures Placed(CodeOf(s2), cur, Chain(a, b), |st.frags|, |st.sequence|)
  {
    hide Grew, Size, Placed;
    AsChain(CodeOf(s2), cur, a, b, |st.frags|, |st.sequence|);
    StaysPlaced(s1, s2, |s1.frags|, cur, a, |st.frags|, |st.sequence|);
    GrewTwice(st, s1, s2, |st.frags|, |s1.frags|, |st.frags|);
  }

  lemma {:induction false} IfThenDone(st: State, s1: State, b: Stmt)
    requires s1.cf == st.cf && Grew(st, s1, |st.frags|) && Sized(st, s1, Size(b) + 2, Size(b) + 2)
    requires PlacedIfThen(CodeOf(s1), |st.words| - 1, b, |st.frags|, |st.sequence|)
    ensures CompiledTo(st, s1, IfThen(b))
  {
    hide Grew, PlacedIfThen, Placed, Size;
    AsIfThen(CodeOf(s1), |st.words| - 1, b, |st.frags|, |st.sequence|);
  }

  lemma {:induction false} IfElseDone(st: State, s1: State, a: Stmt, b: Stmt)
    requires s1.cf == st.cf && Grew(st, s1, |st.frags|) && Sized(st, s1, Size(a) + Size(b) + 4, Size(a) + Size(b) + 4)
    requires PlacedIfElse(CodeOf(s1), |st.words| - 1, a, b, |st.frags|, |st.sequence|)
    ensures CompiledTo(st, s1, IfElse(a, b))
  {
    hide Grew, PlacedIfElse, Placed, Size;
    AsIfElse(CodeOf(s1), |st.words| - 1, a, b, |st.frags|, |st.sequence|);
  }

  lemma {:induction false} BeginUntilDone(st: State, s1: State, b: Stmt)
    requires s1.cf == st.cf && Grew(st, s1, |st.frags|) && Sized(st, s1, Size(b) + 2, Size(b) + 2)
    requires PlacedBeginUntil(CodeOf(s1), |st.words| - 1, b, |st.frags|, |st.sequence|)
    ensures CompiledTo(st, s1, BeginUntil(b))
  {
    hide Grew, PlacedBeginUntil, Placed, Size;
    AsBeginUntil(CodeOf(s1), |st.words| - 1, b, |st.frags|, |st.sequence|);
  }

  lemma {:induction false} BeginAgainDone(st: State, s1: State, b: Stmt)
    requires s1.cf == st.cf && Grew(st, s1, |st.frags|) && Sized(st, s1, Size(b) + 2, Size(b) + 2)
    requires PlacedBeginAgain(CodeOf(s1), |st.words| - 1, b, |st.frags|, |st.sequence|)
    ensures CompiledTo(st, s1, BeginAgain(b))
  {
    hide Grew, PlacedBeginAgain, Placed, Size;
    AsBeginAgain(CodeOf(s1), |st.words| - 1, b, |st.frags|, |st.sequence|);
  }

  lemma {:induction false} BeginWhileDone(st: State, s1: State, d: Stmt, b: Stmt)
    requires s1.cf == st.cf && Grew(st, s1, |st.frags|) && Sized(st, s1, Size(d) + Size(b) + 4, Size(d) + Size(b) + 4)
    requires PlacedBeginWhile(CodeOf(s1), |st.words| - 1, d, b, |st.frags|, |st.sequence|)
    ensures CompiledTo(st, s1, BeginWhile(d, b))
  {
    hide Grew, PlacedBeginWhile, Placed, Size;
    AsBeginWhile(CodeOf(s1), |st.words| - 1, d, b, |st.frags|, |st.sequence|);
  }

  lemma {:induction false} DoLoopDone(st: State, s1: State, b: Stmt)
    requires s1.cf == st.cf && Grew(st, s1, |st.frags|) && Sized(st, s1, Size(b) + 3, Size(b) + 3)
    requires PlacedDoLoop(CodeOf(s1), |st.words| - 1, b, |st.frags|, |st.sequence|)
    ensures CompiledTo(st, s1, DoLoop(b))
  {
    hide Grew, PlacedDoLoop, Placed, Size;
    AsDoLoop(CodeOf(s1), |st.words| - 1, b, |st.frags|, |st.sequence|);
  }

  // Each construct opens with a token, may turn in the middle, and closes.

  ghost predicate OpenedForward(st: State, s1: State, kind: ControlKind) {
    && s1.cf == st.cf + [ControlFlow(kind, |st.frags|)]
    && Grew(st, s1, |st.frags|) && Sized(st, s1, 2, 1) && IsLoc(s1, |st.frags|)
    && At(CodeOf(s1), |st.sequence|, |st.frags| + 1, BranchIfZero, |st.frags|)
  }

  ghost predicate OpenedBegin(st: State, s1: State) {
    && s1.cf == st.cf + [ControlFlow(CfBegin, |st.frags|)]
    && Grew(st, s1, |st.frags|) && Sized(st, s1, 1, 1)
    && At(CodeOf(s1), |st.sequence|, |st.frags|, BranchLocation, -1)
  }

  ghost predicate OpenedDo(st: State, s1: State) {
    && s1.cf == st.cf + [ControlFlow(CfDo, |st.frags| + 1)]
    && Grew(st, s1, |st.frags|) && Sized(st, s1, 2, 2)
    && At(CodeOf(s1), |st.sequence|, |st.frags|, Do, -1)
    && At(CodeOf(s1), |st.sequence| + 1, |st.frags| + 1, BranchLocation, -1)
  }

  ghost predicate TurnedElse(st: State, s2: State, s3: State) {
    && s3.cf == st.cf + [ControlFlow(CfElse, |s2.frags|)]
    && Grew(s2, s3, |st.frags|) && Sized(s2, s3, 2, 2) && IsLoc(s3, |s2.frags|)
    && At(CodeOf(s3), |s2.sequence|, |s2.frags| + 1, Branch, |s2.frags|)
    && At(CodeOf(s3), |s2.sequence| + 1, |st.frags|, BranchLocation, -1)
  }

  lemma {:induction false} OpenForward(lr: Option<Opcode -> bool>, st: State, t: Token, b: Stmt, k: seq<Token>)
      returns (s1: State)
    requires t.If? || (t.While? && st.cf != [] && Top(st).kind.CfBegin?)
    requires Acceptable(st, b)
    ensures RunTokens(lr, st, [t] + Text(b, k)) == RunTokens(lr, s1, Text(b, k))
    ensures Acceptable(s1, b) && OpenedForward(st, s1, if t.If? then CfIf else CfWhile)
  {
    s1 := ForwardStep(lr, st, t);
    hide RunTokens, StepToken, OpenLoops, Text, Grew, At, WellFormed;
    OpenLoopsPush(st.cf, ControlFlow(if t.If? then CfIf else CfWhile, |st.frags|));
    RunOne(lr, st, t, Text(b, k), s1);
    StillAcceptable(st, s1, |st.frags|, b);
  }

  lemma {:induction false} OpenBegin(lr: Option<Opcode -> bool>, st: State, b: Stmt, k: seq<Token>) returns (s1: State)
    requires Acceptable(st, b)
    ensures RunTokens(lr, st, [Begin] + Text(b, k)) == RunTokens(lr, s1, Text(b, k))
    ensures Acceptable(s1, b) && OpenedBegin(st, s1)
  {
    s1 := BeginStep(lr, st);
    hide RunTokens, StepToken, OpenLoops, Text, Grew, At, WellFormed;
    OpenLoopsPush(st.cf, ControlFlow(CfBegin, |st.frags|));
    RunOne(lr, st, Begin, Text(b, k), s1);
    StillAcceptable(st, s1, |st.frags|, b);
  }

  lemma {:induction false} OpenDo(lr: Option<Opcode -> bool>, st: State, b: Stmt, k: seq<Token>) returns (s1: State)
    requires Ready(st) && WellFormed(b, st.defining, |st.words|, OpenLoops(st.cf) + 1)
    ensures RunTokens(lr, st, [DoWord] + Text(b, k)) == RunTokens(lr, s1, Text(b, k))
    ensures Acceptable(s1, b) && OpenedDo(st, s1)
  {
    s1 := DoStep(lr, st);
    hide RunTokens, StepToken, OpenLoops, Text, Grew, At, WellFormed;
    OpenLoopsPush(st.cf, ControlFlow(CfDo, |st.frags| + 1));
    RunOne(lr, st, DoWord, Text(b, k), s1);
    StillAcceptable(st, s1, |st.frags|, b);
  }

  /** After a compiled part: same stack, same dictionary, locations still there. */
  lemma {:induction false} AfterPart(st: State, s1: State, s2: State, base: nat, a: Stmt, id: nat)
    requires Grew(st, s1, base) && CompiledTo(s1, s2, a)
    ensures s2.words == st.words && s2.defining == st.defining && s2.cf == s1.cf && Grew(s1, s2, |s1.frags|)
    ensures Ready(st) ==> Ready(s2)
    ensures IsLoc(s1, id) ==> IsLoc(s2, id)
    ensures Sized(s1, s2, Size(a), Size(a)) && Placed(CodeOf(s2), |st.words| - 1, a, |s1.frags|, |s1.sequence|)
  {
    hide Placed, Size;
    if IsLoc(s1, id) { LocGrows(s1, s2, |s1.frags|, id); }
  }

  lemma {:induction false} TurnElse(lr: Option<Opcode -> bool>, st: State, s1: State, s2: State, a: Stmt, b: Stmt,
      k: seq<Token>) returns (s3: State)
    requires OpenedForward(st, s1, CfIf) && CompiledTo(s1, s2, a) && Acceptable(st, b)
    ensures RunTokens(lr, s2, [Else] + Text(b, k)) == RunTokens(lr, s3, Text(b, k))
    ensures Acceptable(s3, b) && TurnedElse(st, s2, s3)
  {
    hide CompiledTo, Placed, Size, RunTokens, StepToken, OpenLoops, Text, Grew, At, WellFormed;
    AfterPart(st, s1, s2, |st.frags|, a, |st.frags|);
    TopOf(s2, st.cf, ControlFlow(CfIf, |st.frags|));
    s3 := ElseTurns(lr, st, s2, Text(b, k));
    OpenLoopsPush(st.cf, ControlFlow(CfElse, |s2.frags|));
    StillAcceptable(s2, s3, |st.frags|, b);
  }

  lemma {:induction false} ElseTurns(lr: Option<Opcode -> bool>, st: State, s2: State, k: seq<Token>)
      returns (s3: State)
    requires s2.cf == st.cf + [ControlFlow(CfIf, |st.frags|)] && TopEntry(s2) == ControlFlow(CfIf, |st.frags|)
    requires IsLoc(s2, |st.frags|)
    ensures RunTokens(lr, s2, [Else] + k) == RunTokens(lr, s3, k)
    ensures TurnedElse(st, s2, s3)
  {
    hide RunTokens, StepToken, Grew, At, TopEntry;
    s3 := ElseStep(lr, s2, st.cf, |st.frags|);
    RunOne(lr, s2, Else, k, s3);
  }

  lemma {:induction false} TurnWhile(lr: Option<Opcode -> bool>, st: State, s1: State, s2: State, d: Stmt, b: Stmt,
      k: seq<Token>) returns (s3: State)
    requires OpenedBegin(st, s1) && CompiledTo(s1, s2, d) && Acceptable(st, b)
    ensures RunTokens(lr, s2, [While] + Text(b, k)) == RunTokens(lr, s3, Text(b, k))
    ensures Acceptable(s3, b) && OpenedForward(s2, s3, CfWhile)
  {
    hide CompiledTo, Placed, Size, RunTokens, Text, Grew, At, WellFormed;
    AfterPart(st, s1, s2, |st.frags|, d, |st.frags|);
    OpenLoopsPush(st.cf, ControlFlow(CfBegin, |st.frags|));
    hide OpenLoops;
    s3 := OpenForward(lr, s2, While, b, k);
  }

  lemma {:induction false} CloseIfThen(lr: Option<Opcode -> bool>, st: State, s1: State, s2: State, b: Stmt,
      rest: seq<Token>) returns (s3: State)
    requires OpenedForward(st, s1, CfIf) && CompiledTo(s1, s2, b)
    ensures RunTokens(lr, s2, [Then] + rest) == RunTokens(lr, s3, rest)
    ensures CompiledTo(st, s3, IfThen(b))
  {
    hide CompiledTo, Placed, Size, RunTokens, StepToken, Grew, At, TopEntry;
    AfterPart(st, s1, s2, |st.frags|, b, |st.frags|);
    TopOf(s2, st.cf, ControlFlow(CfIf, |st.frags|));
    s3 := ThenStep(lr, s2, st.cf, |st.frags|);
    RunOne(lr, s2, Then, rest, s3);
    IfThenPlaced(st, s1, s2, s3, |st.words| - 1, b);
    IfThenDone(st, s3, b);
  }

  lemma {:induction false} ThenCloses(lr: Option<Opcode -> bool>, low: seq<ControlFlow>, e: ControlFlow, s4: State,
      base: nat, k: seq<Token>) returns (s5: State)
    requires s4.cf == low + [e] && (e.kind.CfIf? || e.kind.CfElse?) && IsLoc(s4, e.fragment) && base <= e.fragment
    ensures RunTokens(lr, s4, [Then] + k) == RunTokens(lr, s5, k)
    ensures s5.cf == low && Grew(s4, s5, base) && Sized(s4, s5, 0, 1)
    ensures At(CodeOf(s5), |s4.sequence|, e.fragment, BranchLocation, -1)
  {
    TopOf(s4, low, e);
    hide RunTokens, StepToken, Grew, At, TopEntry;
    s5 := ThenStep(lr, s4, low, base);
    RunOne(lr, s4, Then, k, s5);
  }

  lemma {:induction false} RepeatCloses(lr: Option<Opcode -> bool>, low: seq<ControlFlow>, s4: State, b: nat, w: nat,
      k: seq<Token>) returns (s5: State)
    requires s4.cf == low + [ControlFlow(CfBegin, b)] + [ControlFlow(CfWhile, w)] && IsLoc(s4, w) && b <= w
    ensures RunTokens(lr, s4, [Repeat] + k) == RunTokens(lr, s5, k)
    ensures s5.cf == low && Grew(s4, s5, b) && Sized(s4, s5, 1, 2)
    ensures At(CodeOf(s5), |s4.sequence|, |s4.frags|, Branch, b)
    ensures At(CodeOf(s5), |s4.sequence| + 1, w, BranchLocation, -1)
  {
    hide RunTokens, StepToken, Grew, At;
    s5 := RepeatStep(lr, s4, low, b, w, b);
    RunOne(lr, s4, Repeat, k, s5);
  }

  lemma {:induction false} CloseIfElse(lr: Option<Opcode -> bool>, st: State, s1: State, s2: State, s3: State,
      s4: State, a: Stmt, b: Stmt, rest: seq<Token>) returns (s5: State)
    requires OpenedForward(st, s1, CfIf) && CompiledTo(s1, s2, a) && TurnedElse(st, s2, s3) && CompiledTo(s3, s4, b)
    ensures RunTokens(lr, s4, [Then] + rest) == RunTokens(lr, s5, rest)
    ensures CompiledTo(st, s5, IfElse(a, b))
  {
    hide CompiledTo, Placed, Size, RunTokens, Grew, At, Ready, PlacedIfElse, IsLoc;
    AfterPart(st, s1, s2, |st.frags|, a, |st.frags|);
    AfterPart(s2, s3, s4, |st.frags|, b, |s2.frags|);
    s5 := ThenCloses(lr, st.cf, ControlFlow(CfElse, |s2.frags|), s4, |st.frags|, rest);
    IfElsePlaced(st, s1, s2, s3, s4, s5, |st.words| - 1, a, b);
    IfElseDone(st, s5, a, b);
  }

  lemma {:induction false} CloseBegin(lr: Option<Opcode -> bool>, st: State, s1: State, s2: State, t: Token, b: Stmt,
      rest: seq<Token>) returns (s3: State)
    requires t.Until? || t.Again?
    requires OpenedBegin(st, s1) && CompiledTo(s1, s2, b)
    ensures RunTokens(lr, s2, [t] + rest) == RunTokens(lr, s3, rest)
    ensures CompiledTo(st, s3, if t.Until? then BeginUntil(b) else BeginAgain(b))
  {
    hide CompiledTo, Placed, Size, RunTokens, StepToken, Grew, At, TopEntry;
    AfterPart(st, s1, s2, |st.frags|, b, |st.frags|);
    TopOf(s2, st.cf, ControlFlow(CfBegin, |st.frags|));
    s3 := BackwardStep(lr, s2, st.cf, t);
    RunOne(lr, s2, t, rest, s3);
    if t.Until? {
      BeginUntilPlaced(st, s1, s2, s3, |st.words| - 1, b);
      BeginUntilDone(st, s3, b);
    } else {
      BeginAgainPlaced(st, s1, s2, s3, |st.words| - 1, b);
      BeginAgainDone(st, s3, b);
    }
  }

  lemma {:induction false} CloseRepeat(lr: Option<Opcode -> bool>, st: State, s1: State, s2: State, s3: State,
      s4: State, d: Stmt, b: Stmt, rest: seq<Token>) returns (s5: State)
    requires OpenedBegin(st, s1) && CompiledTo(s1, s2, d) && OpenedForward(s2, s3, CfWhile) && CompiledTo(s3, s4, b)
    ensures RunTokens(lr, s4, [Repeat] + rest) == RunTokens(lr, s5, rest)
    ensures CompiledTo(st, s5, BeginWhile(d, b))
  {
    hide CompiledTo, Placed, Size, RunTokens, Grew, At, Ready, PlacedBeginWhile, IsLoc;
    AfterPart(st, s1, s2, |st.frags|, d, |st.frags|);
    AfterPart(s2, s3, s4, |s2.frags|, b, |s2.frags|);
    s5 := RepeatCloses(lr, st.cf, s4, |st.frags|, |s2.frags|, rest);
    BeginWhilePlaced(st, s1, s2, s3, s4, s5, |st.words| - 1, d, b);
    BeginWhileDone(st, s5, d, b);
  }

  lemma {:induction false} CloseLoop(lr: Option<Opcode -> bool>, st: State, s1: State, s2: State, b: Stmt,
      rest: seq<Token>) returns (s3: State)
    requires OpenedDo(st, s1) && CompiledTo(s1, s2, b)
    ensures RunTokens(lr, s2, [LoopWord] + rest) == RunTokens(lr, s3, rest)
    ensures CompiledTo(st, s3, DoLoop(b))
  {
    hide CompiledTo, Placed, Size, RunTokens, StepToken, Grew, At, TopEntry;
    AfterPart(st, s1, s2, |st.frags|, b, |st.frags|);
    TopOf(s2, st.cf, ControlFlow(CfDo, |st.frags| + 1));
    s3 := BackwardStep(lr, s2, st.cf, LoopWord);
    RunOne(lr, s2, LoopWord, rest, s3);
    DoLoopPlaced(st, s1, s2, s3, |st.words| - 1, b);
    DoLoopDone(st, s3, b);
  }

  lemma {:induction false} ChainNext(st: State, s1: State, a: Stmt, b: Stmt)
    requires Acceptable(st, b) && CompiledTo(st, s1, a)
    ensures Acceptable(s1, b)
  {
    hide Placed, Size, WellFormed, OpenLoops;
  }

  lemma {:induction false} CloseChain(st: State, s1: State, s2: State, a: Stmt, b: Stmt)
    requires CompiledTo(st, s1, a) && CompiledTo(s1, s2, b)
    ensures CompiledTo(st, s2, Chain(a, b))
  {
    SameWords(st, s1, |st.frags|);
    hide Placed, Grew, Size, OpenLoops;
    ChainPlaced(st, s1, s2, |st.words| - 1, a, b);
  }

  lemma {:induction false} PartsAcceptable(st: State, s: Stmt)
    requires Acceptable(st, s)
    ensures s.Chain? ==> Acceptable(st, s.first) && Acceptable(st, s.second)
    ensures s.IfThen? || s.BeginUntil? || s.BeginAgain? ==> Acceptable(st, s.body)
    ensures s.IfElse? ==> Acceptable(st, s.yes) && Acceptable(st, s.no)
    ensures s.DoLoop? ==> Ready(st) && WellFormed(s.body, st.defining, |st.words|, OpenLoops(st.cf) + 1)
    ensures s.BeginWhile? ==> Acceptable(st, s.cond) && Acceptable(st, s.body)
  {
  }

  lemma {:induction false} TextOfParts(s: Stmt, rest: seq<Token>)
    ensures s.Chain? ==> Text(s, rest) == Text(s.first, Text(s.second, rest))
    ensures s.IfThen? ==> Text(s, rest) == [If] + Text(s.body, [Then] + rest)
    ensures s.IfElse? ==> Text(s, rest) == [If] + Text(s.yes, [Else] + Text(s.no, [Then] + rest))
    ensures s.BeginUntil? ==> Text(s, rest) == [Begin] + Text(s.body, [Until] + rest)
    ensures s.BeginAgain? ==> Text(s, rest) == [Begin] + Text(s.body, [Again] + rest)
    ensures s.BeginWhile? ==> Text(s, rest) == [Begin] + Text(s.cond, [While] + Text(s.body, [Repeat] + rest))
    ensures s.DoLoop? ==> Text(s, rest) == [DoWord] + Text(s.body, [LoopWord] + rest)
  {
  }

  /** Every well-formed structured program is accepted, and its fragments are where the
      structure says. */
  lemma {:induction false} Compiles(lr: Option<Opcode -> bool>, st: State, s: Stmt, rest: seq<Token>) returns (z: State)
    requires Acceptable(st, s)
    ensures RunTokens(lr, st, Text(s, rest)) == RunTokens(lr, z, rest)
    ensures CompiledTo(st, z, s)
    decreases s
  {
    hide Acceptable, CompiledTo, RunTokens, OpenedForward, OpenedBegin, OpenedDo, TurnedElse, WellFormed, OpenLoops,
        Size, Placed, Text;
    PartsAcceptable(st, s);
    TextOfParts(s, rest);
    match s
    case Chain(a, b) =>
      var s1 := Compiles(lr, st, a, Text(b, rest));
      ChainNext(st, s1, a, b);
      z := Compiles(lr, s1, b, rest);
      CloseChain(st, s1, z, a, b);
    case IfThen(b) =>
      var s1 := OpenForward(lr, st, If, b, [Then] + rest);
      var s2 := Compiles(lr, s1, b, [Then] + rest);
      z := CloseIfThen(lr, st, s1, s2, b, rest);
    case IfElse(a, b) =>
      var no := Text(b, [Then] + rest);
      var s1 := OpenForward(lr, st, If, a, [Else] + no);
      var s2 := Compiles(lr, s1, a, [Else] + no);
      var s3 := TurnElse(lr, st, s1, s2, a, b, [Then] + rest);
      var s4 := Compiles(lr, s3, b, [Then] + rest);
      z := CloseIfElse(lr, st, s1, s2, s3, s4, a, b, rest);
    case BeginUntil(b) =>
      var s1 := OpenBegin(lr, st, b, [Until] + rest);
      var s2 := Compiles(lr, s1, b, [Until] + rest);
      z := CloseBegin(lr, st, s1, s2, Until, b, rest);
    case BeginAgain(b) =>
      var s1 := OpenBegin(lr, st, b, [Again] + rest);
      var s2 := Compiles(lr, s1, b, [Again] + rest);
      z := CloseBegin(lr, st, s1, s2, Again, b, rest);
    case BeginWhile(d, b) =>
      var body := Text(b, [Repeat] + rest);
      var s1 := OpenBegin(lr, st, d, [While] + body);
      var s2 := Compiles(lr, s1, d, [While] + body);
      var s3 := TurnWhile(lr, st, s1, s2, d, b, [Repeat] + rest);
      var s4 := Compiles(lr, s3, b, [Repeat] + rest);
      z := CloseRepeat(lr, st, s1, s2, s3, s4, d, b, rest);
    case DoLoop(b) =>
      var s1 := OpenDo(lr, st, b, [LoopWord] + rest);
      var s2 := Compiles(lr, s1, b, [LoopWord] + rest);
      z := CloseLoop(lr, st, s1, s2, b, rest);
    case Empty => z := AtomCompiles(lr, st, s, rest);
    case Unlooped => z := AtomCompiles(lr, st, s, rest);
    case Prim(_, _) => z := AtomCompiles(lr, st, s, rest);
    case Call(_) => z := AtomCompiles(lr, st, s, rest);
    case TickWord(_) => z := AtomCompiles(lr, st, s, rest);
    case SelfCall => z := AtomCompiles(lr, st, s, rest);
    case Leave => z := AtomCompiles(lr, st, s, rest);
  }
}
