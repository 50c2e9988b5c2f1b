/** The token loop in its own form: an object whose arrays grow and whose control-flow stack is
    patched, one method per step of compile.c.  Each method is proved against FrontEnd. */
module Compiler {
  import opened Common
  import opened Fragments
  import opened FrontEnd
  import opened Conservation

  class TokenLoop {
    var allFragments: seq<Fragment>
    var sequence: seq<nat>
    var controlFlowStack: seq<ControlFlow>
    var definingWord: bool
    var definedWordFragments: seq<nat>
    const opUsesLr: Option<Opcode -> bool>

    function View(): State
      reads this
    {
      State(allFragments, sequence, controlFlowStack, definingWord, definedWordFragments)
    }

    constructor (opUsesLr: Option<Opcode -> bool>)
      ensures this.opUsesLr == opUsesLr && View() == InitialState()
    {
      this.opUsesLr := opUsesLr;
      allFragments := [Fragment(Entry, 0, false, false, false)];
      sequence := [0];
      controlFlowStack, definingWord, definedWordFragments := [], false, [];
    }

    method CreateFragment(op: Opcode, param: int) returns (fragment: nat)
      modifies this
      ensures fragment == |old(allFragments)| && View() == Create(old(View()), op, param)
    {
      allFragments := allFragments + [Fragment(op, param, definingWord, false, false)];
      fragment := |allFragments| - 1;
    }

    method SequenceHelper(op: Opcode, param: int) returns (fragment: nat)
      modifies this
      ensures fragment == |old(allFragments)| && View() == Emit(old(View()), op, param)
    {
      fragment := CreateFragment(op, param);
      sequence := sequence + [fragment];
    }

    /** The scan for a use of the link register, backward from the fragment before the exit just
        emitted to the word's location or an earlier exit. */
    method UpdateDefinedWordNestedCallParam(d: nat)
      requires definedWordFragments != [] && d == definedWordFragments[|definedWordFragments| - 1]
      requires d < |allFragments| && d <= |sequence| - 2
      requires forall i :: 0 <= i < |sequence| ==> sequence[i] < |allFragments|
      modifies this
      ensures View() == UpdateCalls(opUsesLr, old(View()))
    {
      if opUsesLr.None? { return; }
      if allFragments[d].calls { return; }
      var i := |sequence| - 2;
      while i != d
        invariant d <= i <= |sequence| - 2
        invariant View() == old(View())
        invariant ScanBack(opUsesLr.value, allFragments, sequence, d, |sequence| - 2)
               == ScanBack(opUsesLr.value, allFragments, sequence, d, i)
        decreases i
      {
        var op := allFragments[sequence[i]].op;
        if op == ExitWord { return; }
        if opUsesLr.value(op) {
          allFragments := allFragments[d := allFragments[d].(calls := true)];
          return;
        }
        i := i - 1;
      }
    }

    /** The check that `i` and `j` stand inside enough loops. */
    method LoopIndexAllowed(required: nat) returns (ok: bool)
      ensures ok == (required <= OpenLoops(controlFlowStack))
    {
      var requiredDepth := required;
      if requiredDepth == 0 { return true; }
      var i := 0;
      while i < |controlFlowStack|
        invariant 0 <= i <= |controlFlowStack|
        invariant requiredDepth > 0 && requiredDepth + OpenLoops(controlFlowStack[..i]) == required
      {
        assert controlFlowStack[..i + 1][..i] == controlFlowStack[..i];
        if controlFlowStack[i].kind.CfDo? { requiredDepth := requiredDepth - 1; }
        i := i + 1;
        if requiredDepth == 0 {
          OpenLoopsGrows(controlFlowStack, i);
          return true;
        }
      }
      assert controlFlowStack[..i] == controlFlowStack;
      return false;
    }

    /** Sets the LOOPS flag of the current word when a loop is open. */
    method MarkOpenLoops(d: nat)
      requires definedWordFragments != [] && d == definedWordFragments[|definedWordFragments| - 1]
      requires d < |allFragments|
      modifies this
      ensures View() == MarkLoops(old(View()))
    {
      var i := 0;
      while i < |controlFlowStack|
        invariant 0 <= i <= |controlFlowStack|
        invariant View() == old(View()) && OpenLoops(controlFlowStack[..i]) == 0
      {
        assert controlFlowStack[..i + 1][..i] == controlFlowStack[..i];
        if controlFlowStack[i].kind.CfDo? {
          OpenLoopsGrows(controlFlowStack, i + 1);
          allFragments := allFragments[d := allFragments[d].(loops := true)];
          return;
        }
        i := i + 1;
      }
      assert controlFlowStack[..i] == controlFlowStack;
    }

    method DropEnd()
      requires controlFlowStack != []
      modifies this
      ensures View() == PopCf(old(View()))
    {
      controlFlowStack := controlFlowStack[..|controlFlowStack| - 1];
    }

    /** `;` and `exit`: the exit fragment, the LOOPS flag for `exit`, the CALLS flag. */
    method EndOfWord(t: Token) returns (ret: int)
      requires t.Semicolon? || t.Exit?
      requires Invariant(View())
      modifies this
      ensures Outcome(old(View()), t, ret)
    {
      hide Invariant;
      if !definingWord {
        return if t.Semicolon? then UNEXPECTED_SEMICOLON_ERROR else NOT_ALLOWED_OUTSIDE_WORD_ERROR;
      }
      InsideWord(View());
      if t.Semicolon? && controlFlowStack != [] { return UNTERMINATED_CONTROL_FLOW_ERROR; }
      var d := definedWordFragments[|definedWordFragments| - 1];
      var _ := SequenceHelper(ExitWord, d);
      if t.Exit? { MarkOpenLoops(d); }
      UpdateDefinedWordNestedCallParam(d);
      if t.Semicolon? { definingWord := false; }
      return 0;
    }

    /** `then`, `loop`, `until`, `again`: the terminators that close one entry. */
    method Terminator(t: Token) returns (ret: int)
      requires t.Then? || t.LoopWord? || t.Until? || t.Again?
      modifies this
      ensures Outcome(old(View()), t, ret)
    {
      if |controlFlowStack| == 0 { return UNEXPECTED_CONTROL_FLOW_TERMINATOR_ERROR; }
      var top := controlFlowStack[|controlFlowStack| - 1];
      if t.Then? {
        if !top.kind.CfIf? && !top.kind.CfElse? { return WRONG_TERMINATOR_FOR_THIS_CONTROL_FLOW_ERROR; }
        sequence := sequence + [top.fragment];
      } else {
        if if t.LoopWord? then !top.kind.CfDo? else !top.kind.CfBegin? {
          return WRONG_TERMINATOR_FOR_THIS_CONTROL_FLOW_ERROR;
        }
        var op := if t.LoopWord? then Loop else if t.Until? then BranchIfZero else Branch;
        var _ := SequenceHelper(op, top.fragment);
      }
      DropEnd();
      return 0;
    }

    method ElseWord() returns (ret: int)
      modifies this
      ensures Outcome(old(View()), Else, ret)
    {
      var n := |controlFlowStack|;
      if n == 0 { return UNEXPECTED_CONTROL_FLOW_TERMINATOR_ERROR; }
      var top := controlFlowStack[n - 1];
      if !top.kind.CfIf? { return WRONG_TERMINATOR_FOR_THIS_CONTROL_FLOW_ERROR; }
      var location := CreateFragment(BranchLocation, -1);
      var _ := SequenceHelper(Branch, location);
      sequence := sequence + [top.fragment];
      controlFlowStack := controlFlowStack[n - 1 := ControlFlow(CfElse, location)];
      assert controlFlowStack == old(controlFlowStack)[..n - 1] + [ControlFlow(CfElse, location)];
      return 0;
    }

    method WhileWord() returns (ret: int)
      modifies this
      ensures Outcome(old(View()), While, ret)
    {
      if |controlFlowStack| == 0 { return UNEXPECTED_CONTROL_FLOW_TERMINATOR_ERROR; }
      if !controlFlowStack[|controlFlowStack| - 1].kind.CfBegin? {
        return WRONG_TERMINATOR_FOR_THIS_CONTROL_FLOW_ERROR;
      }
      var location := CreateFragment(BranchLocation, -1);
      var _ := SequenceHelper(BranchIfZero, location);
      controlFlowStack := controlFlowStack + [ControlFlow(CfWhile, location)];
      return 0;
    }

    method RepeatWord() returns (ret: int)
      modifies this
      ensures Outcome(old(View()), Repeat, ret)
    {
      var n := |controlFlowStack|;
      if n == 0 { return UNEXPECTED_CONTROL_FLOW_TERMINATOR_ERROR; }
      var whileCf := controlFlowStack[n - 1];
      if !whileCf.kind.CfWhile? { return WRONG_TERMINATOR_FOR_THIS_CONTROL_FLOW_ERROR; }
      if n <= 1 { return UNEXPECTED_CONTROL_FLOW_TERMINATOR_ERROR; }
      var beginCf := controlFlowStack[n - 2];
      if !beginCf.kind.CfBegin? { return WRONG_TERMINATOR_FOR_THIS_CONTROL_FLOW_ERROR; }
      var _ := SequenceHelper(Branch, beginCf.fragment);
      sequence := sequence + [whileCf.fragment];
      DropEnd();
      DropEnd();
      return 0;
    }

    /** `if`, `do`, `begin`: the words that only open an entry. */
    method Opener(t: Token)
      requires t.If? || t.DoWord? || t.Begin?
      modifies this
      ensures Outcome(old(View()), t, 0)
    {
      if t.If? {
        var location := CreateFragment(BranchLocation, -1);
        var _ := SequenceHelper(BranchIfZero, location);
        controlFlowStack := controlFlowStack + [ControlFlow(CfIf, location)];
      } else {
        if t.DoWord? { var _ := SequenceHelper(Do, -1); }
        var location := SequenceHelper(BranchLocation, -1);
        controlFlowStack := controlFlowStack + [ControlFlow(if t.DoWord? then CfDo else CfBegin, location)];
      }
    }

    /** The word that fits no intrinsic: one fragment, checked for `i`, `j` and declarations. */
    method PlainWord(op: Opcode, param: int) returns (ret: int)
      modifies this
      ensures Outcome(old(View()), Plain(op, param), ret)
    {
      if !IsPlain(op) { return UNKNOWN_ERROR; }
      if IsDeclaration(op) && definingWord { return NOT_ALLOWED_INSIDE_WORD_ERROR; }
      var _ := SequenceHelper(op, param);
      var allowed := LoopIndexAllowed(LoopsNeeded(op, param));
      return if allowed then 0 else LOOP_INDEX_USED_OUTSIDE_LOOP;
    }

    /** The result of a step: 0 and the new state, or the error code. */
    ghost predicate Outcome(was: State, t: Token, ret: int)
      reads this
    {
      match StepToken(opUsesLr, was, t)
      case Ok(now) => ret == 0 && View() == now
      case Err(code) => ret == code
    }

    /** Words of the dictionary, `unloop` and `:`. */
    method WordToken(t: Token) returns (ret: int)
      requires Invariant(View()) && (t.CallWord? || t.Tick? || t.Recurse? || t.Unloop? || t.Colon?)
      modifies this
      ensures Outcome(old(View()), t, ret)
    {
      ret := 0;
      match t
      case CallWord(k) =>
        if k >= |definedWordFragments| { return UNKNOWN_ERROR; }
        var _ := SequenceHelper(DefinedWord, definedWordFragments[k]);
      case Tick(k) =>
        if k >= |definedWordFragments| { return UNKNOWN_ERROR; }
        var _ := SequenceHelper(PushOffsetAddress, definedWordFragments[k]);
      case Recurse =>
        if !definingWord { return NOT_ALLOWED_OUTSIDE_WORD_ERROR; }
        var _ := SequenceHelper(DefinedWord, definedWordFragments[|definedWordFragments| - 1]);
      case Unloop =>
      case Colon =>
        if definingWord { return NOT_ALLOWED_INSIDE_WORD_ERROR; }
        if |controlFlowStack| != 0 { return UNTERMINATED_CONTROL_FLOW_ERROR; }
        definingWord := true;
        var fragment := SequenceHelper(DefinedWordLocation, 0);
        definedWordFragments := definedWordFragments + [fragment];
    }

    method Process(t: Token) returns (ret: int)
      requires Invariant(View())
      modifies this
      ensures Outcome(old(View()), t, ret)
    {
      hide StepToken, Invariant;
      ret := 0;
      match t
      case Plain(op, param) => ret := PlainWord(op, param);
      case CallWord(_) => ret := WordToken(t);
      case Tick(_) => ret := WordToken(t);
      case Recurse => ret := WordToken(t);
      case Unloop => ret := WordToken(t);
      case Colon => ret := WordToken(t);
      case Semicolon => ret := EndOfWord(t);
      case Exit => ret := EndOfWord(t);
      case If => Opener(t);
      case Then => ret := Terminator(t);
      case Else => ret := ElseWord();
      case DoWord => Opener(t);
      case LoopWord => ret := Terminator(t);
      case Begin => Opener(t);
      case Until => ret := Terminator(t);
      case While => ret := WhileWord();
      case Repeat => ret := RepeatWord();
      case Again => ret := Terminator(t);
    }

    /** From the first token to the HALT fragment. */
    method Run(tokens: seq<Token>) returns (ret: int)
      requires View() == InitialState()
      modifies this
      ensures ret == 0 <==> Compiled(opUsesLr, tokens).Ok?
      ensures match Compiled(opUsesLr, tokens)
        case Ok(st) => ret == 0 && View() == st
        case Err(code) => ret == code
    {
      hide StepToken, Invariant;
      InitialInvariant();
      var i := 0;
      assert tokens[..0] + tokens == tokens;
      while i < |tokens|
        invariant 0 <= i <= |tokens|
        invariant Invariant(View())
        invariant RunTokens(opUsesLr, InitialState(), tokens) == RunTokens(opUsesLr, View(), tokens[i..])
      {
        assert tokens[i..][0] == tokens[i] && tokens[i..][1..] == tokens[i + 1..];
        ghost var was := View();
        ret := Process(tokens[i]);
        if ret != 0 {
          ErrorsAreNonzero(opUsesLr, was, tokens[i]);
          return;
        }
        ErrorsAreNonzero(opUsesLr, was, tokens[i]);
        StepKeepsInvariant(opUsesLr, was, tokens[i]);
        i := i + 1;
      }
      if definingWord || |controlFlowStack| != 0 { return EARLY_END_OF_SOURCE_ERROR; }
      var _ := SequenceHelper(Halt, -1);
      return 0;
    }
  }

  /** While a word is being defined its location is placed, at its own number. */
  lemma {:induction false} InsideWord(st: State)
    requires Invariant(st) && st.defining
    ensures st.words != [] && Current(st) < |st.frags| && Current(st) < |st.sequence|
    ensures forall i :: 0 <= i < |st.sequence| ==> st.sequence[i] < |st.frags|
  {
    PlacedPlusPending(st);
    assert WordOk(st, st.words[|st.words| - 1]);
  }

  lemma {:induction false} OpenLoopsGrows(cf: seq<ControlFlow>, i: nat)
    requires i <= |cf|
    ensures OpenLoops(cf[..i]) <= OpenLoops(cf)
    decreases |cf| - i
  {
    if i < |cf| {
      assert cf[..i + 1][..i] == cf[..i];
      OpenLoopsGrows(cf, i + 1);
    } else {
      assert cf[..i] == cf;
    }
  }

  lemma {:induction false} ErrorsAreNonzero(lr: Option<Opcode -> bool>, st: State, t: Token)
    ensures StepToken(lr, st, t).Err? ==> StepToken(lr, st, t).code < 0
  {
  }
}
