/** The token loop of m4_compile (compile.c:475-788).  Words arrive already looked up: a token
    says which dictionary the lookup found the word in, or which intrinsic it is. */
module FrontEnd {
  import opened Common
  import opened Fragments

  datatype Token =
    | Plain(op: Opcode, param: int)  // a word that emits one fragment of its own
    | CallWord(word: nat)            // a defined word, by its place in the dictionary
    | Tick(word: nat)                // ' word
    | Recurse
    | Unloop
    | Colon
    | Semicolon
    | Exit
    | If | Then | Else
    | DoWord | LoopWord
    | Begin | Until | While | Repeat | Again

  datatype ControlKind = CfIf | CfElse | CfDo | CfBegin | CfWhile
  datatype ControlFlow = ControlFlow(kind: ControlKind, fragment: nat)

  datatype Result<+T> = Ok(value: T) | Err(code: int)

  const UNKNOWN_ERROR := -1
  const NOT_ALLOWED_INSIDE_WORD_ERROR := -2
  const EARLY_END_OF_SOURCE_ERROR := -3
  const UNEXPECTED_SEMICOLON_ERROR := -6
  const NOT_ALLOWED_OUTSIDE_WORD_ERROR := -7
  const WRONG_TERMINATOR_FOR_THIS_CONTROL_FLOW_ERROR := -9
  const UNTERMINATED_CONTROL_FLOW_ERROR := -10
  const UNEXPECTED_CONTROL_FLOW_TERMINATOR_ERROR := -11
  const LOOP_INDEX_USED_OUTSIDE_LOOP := -12

  /** Opcodes that a single word emits without touching the control-flow stack. */
  predicate IsPlain(op: Opcode) {
    op in {BuiltinWord, RuntimeWord, PushLiteral, PushDataAddress, DeclareVariable, UseVariableOrConstant,
           PushCallback, DeclareConstant, Execute, ThreadCreate, ThreadJoin}
  }

  predicate IsDeclaration(op: Opcode) {
    op == DeclareVariable || op == DeclareConstant
  }

  /** The compiler's growing arrays, as values. */
  datatype State = State(
    frags: seq<Fragment>,
    sequence: seq<nat>,
    cf: seq<ControlFlow>,
    defining: bool,
    words: seq<nat>)

  // ----- the building steps -----

  function Create(st: State, op: Opcode, param: int): State {
    st.(frags := st.frags + [Fragment(op, param, st.defining, false, false)])
  }

  function Place(st: State, fragment: nat): State {
    st.(sequence := st.sequence + [fragment])
  }

  function Emit(st: State, op: Opcode, param: int): State {
    Place(Create(st, op, param), |st.frags|)
  }

  function PushCf(st: State, kind: ControlKind, fragment: nat): State {
    st.(cf := st.cf + [ControlFlow(kind, fragment)])
  }

  function PopCf(st: State): State
    requires st.cf != []
  {
    st.(cf := st.cf[..|st.cf| - 1])
  }

  function Top(st: State): ControlFlow
    requires st.cf != []
  {
    st.cf[|st.cf| - 1]
  }

  /** How many loops are open. */
  function OpenLoops(cf: seq<ControlFlow>): nat {
    if cf == [] then 0 else OpenLoops(cf[..|cf| - 1]) + if cf[|cf| - 1].kind.CfDo? then 1 else 0
  }

  function LoopsNeeded(op: Opcode, param: int): nat {
    if op == BuiltinWord && param == I_WORD then 1
    else if op == BuiltinWord && param == J_WORD then 2
    else 0
  }

  /** The backward scan of update_defined_word_nested_call_param: does a fragment that uses the
      link register come before sequence index d or an earlier exit is reached? */
  function ScanBack(usesLr: Opcode -> bool, frags: seq<Fragment>, sequence: seq<nat>, d: int, i: int): bool
    decreases i - d
  {
    if i <= d || !(0 <= i < |sequence|) || sequence[i] >= |frags| then false
    else
      var op := frags[sequence[i]].op;
      if op == ExitWord then false
      else usesLr(op) || ScanBack(usesLr, frags, sequence, d, i - 1)
  }

  /** The fragment of the word being defined. */
  function Current(st: State): nat
    requires st.words != []
  {
    st.words[|st.words| - 1]
  }

  function UpdateCalls(lr: Option<Opcode -> bool>, st: State): State
    requires st.words != [] && Current(st) < |st.frags|
  {
    var d := Current(st);
    if lr.Some? && !st.frags[d].calls && ScanBack(lr.value, st.frags, st.sequence, d, |st.sequence| - 2)
    then st.(frags := st.frags[d := st.frags[d].(calls := true)])
    else st
  }

  function MarkLoops(st: State): State
    requires st.words != [] && Current(st) < |st.frags|
  {
    var d := Current(st);
    if OpenLoops(st.cf) > 0 then st.(frags := st.frags[d := st.frags[d].(loops := true)]) else st
  }

  /** What one token does to the state, or the error it raises. */
  function StepToken(lr: Option<Opcode -> bool>, st: State, t: Token): Result<State> {
    match t
    case Plain(op, param) =>
      if !IsPlain(op) then Err(UNKNOWN_ERROR)
      else if IsDeclaration(op) && st.defining then Err(NOT_ALLOWED_INSIDE_WORD_ERROR)
      else if LoopsNeeded(op, param) > OpenLoops(st.cf) then Err(LOOP_INDEX_USED_OUTSIDE_LOOP)
      else Ok(Emit(st, op, param))
    case CallWord(k) =>
      if k < |st.words| then Ok(Emit(st, DefinedWord, st.words[k])) else Err(UNKNOWN_ERROR)
    case Tick(k) =>
      if k < |st.words| then Ok(Emit(st, PushOffsetAddress, st.words[k])) else Err(UNKNOWN_ERROR)
    case Recurse =>
      if !st.defining || st.words == [] then Err(NOT_ALLOWED_OUTSIDE_WORD_ERROR)
      else Ok(Emit(st, DefinedWord, Current(st)))
    case Unloop => Ok(st)
    case Colon =>
      if st.defining then Err(NOT_ALLOWED_INSIDE_WORD_ERROR)
      else if st.cf != [] then Err(UNTERMINATED_CONTROL_FLOW_ERROR)
      else
        var s1 := Emit(st.(defining := true), DefinedWordLocation, 0);
        Ok(s1.(words := st.words + [|st.frags|]))
    case Semicolon =>
      if !st.defining || st.words == [] || Current(st) >= |st.frags| then Err(UNEXPECTED_SEMICOLON_ERROR)
      else if st.cf != [] then Err(UNTERMINATED_CONTROL_FLOW_ERROR)
      else Ok(UpdateCalls(lr, Emit(st, ExitWord, Current(st))).(defining := false))
    case Exit =>
      if !st.defining || st.words == [] || Current(st) >= |st.frags| then Err(NOT_ALLOWED_OUTSIDE_WORD_ERROR)
      else Ok(UpdateCalls(lr, MarkLoops(Emit(st, ExitWord, Current(st)))))
    case If =>
      var loc := |st.frags|;
      Ok(PushCf(Emit(Create(st, BranchLocation, -1), BranchIfZero, loc), CfIf, loc))
    case Then =>
      if st.cf == [] then Err(UNEXPECTED_CONTROL_FLOW_TERMINATOR_ERROR)
      else if !Top(st).kind.CfIf? && !Top(st).kind.CfElse? then Err(WRONG_TERMINATOR_FOR_THIS_CONTROL_FLOW_ERROR)
      else Ok(PopCf(Place(st, Top(st).fragment)))
    case Else =>
      if st.cf == [] then Err(UNEXPECTED_CONTROL_FLOW_TERMINATOR_ERROR)
      else if !Top(st).kind.CfIf? then Err(WRONG_TERMINATOR_FOR_THIS_CONTROL_FLOW_ERROR)
      else
        var loc := |st.frags|;
        Ok(PushCf(PopCf(Place(Emit(Create(st, BranchLocation, -1), Branch, loc), Top(st).fragment)), CfElse, loc))
    case DoWord =>
      var s1 := Emit(st, Do, -1);
      Ok(PushCf(Emit(s1, BranchLocation, -1), CfDo, |s1.frags|))
    case LoopWord =>
      if st.cf == [] then Err(UNEXPECTED_CONTROL_FLOW_TERMINATOR_ERROR)
      else if !Top(st).kind.CfDo? then Err(WRONG_TERMINATOR_FOR_THIS_CONTROL_FLOW_ERROR)
      else Ok(PopCf(Emit(st, Loop, Top(st).fragment)))
    case Begin => Ok(PushCf(Emit(st, BranchLocation, -1), CfBegin, |st.frags|))
    case Until =>
      if st.cf == [] then Err(UNEXPECTED_CONTROL_FLOW_TERMINATOR_ERROR)
      else if !Top(st).kind.CfBegin? then Err(WRONG_TERMINATOR_FOR_THIS_CONTROL_FLOW_ERROR)
      else Ok(PopCf(Emit(st, BranchIfZero, Top(st).fragment)))
    case While =>
      if st.cf == [] then Err(UNEXPECTED_CONTROL_FLOW_TERMINATOR_ERROR)
      else if !Top(st).kind.CfBegin? then Err(WRONG_TERMINATOR_FOR_THIS_CONTROL_FLOW_ERROR)
      else
        var loc := |st.frags|;
        Ok(PushCf(Emit(Create(st, BranchLocation, -1), BranchIfZero, loc), CfWhile, loc))
    case Repeat =>
      var n := |st.cf|;
      if n == 0 then Err(UNEXPECTED_CONTROL_FLOW_TERMINATOR_ERROR)
      else if !Top(st).kind.CfWhile? then Err(WRONG_TERMINATOR_FOR_THIS_CONTROL_FLOW_ERROR)
      else if n == 1 then Err(UNEXPECTED_CONTROL_FLOW_TERMINATOR_ERROR)
      else if !st.cf[n - 2].kind.CfBegin? then Err(WRONG_TERMINATOR_FOR_THIS_CONTROL_FLOW_ERROR)
      else Ok(PopCf(PopCf(Place(Emit(st, Branch, st.cf[n - 2].fragment), Top(st).fragment))))
    case Again =>
      if st.cf == [] then Err(UNEXPECTED_CONTROL_FLOW_TERMINATOR_ERROR)
      else if !Top(st).kind.CfBegin? then Err(WRONG_TERMINATOR_FOR_THIS_CONTROL_FLOW_ERROR)
      else Ok(PopCf(Emit(st, Branch, Top(st).fragment)))
  }

  /** The whole loop over the tokens, stopping at the first error. */
  function RunTokens(lr: Option<Opcode -> bool>, st: State, ts: seq<Token>): Result<State>
    decreases |ts|
  {
    if ts == [] then Ok(st)
    else match StepToken(lr, st, ts[0])
      case Err(e) => Err(e)
      case Ok(s1) => RunTokens(lr, s1, ts[1..])
  }

  function InitialState(): State {
    Emit(State([], [], [], false, []), Entry, 0)
  }

  /** The front end from the ENTRY fragment to the HALT fragment. */
  function Compiled(lr: Option<Opcode -> bool>, ts: seq<Token>): Result<State> {
    match RunTokens(lr, InitialState(), ts)
    case Err(e) => Err(e)
    case Ok(st) =>
      if st.defining || st.cf != [] then Err(EARLY_END_OF_SOURCE_ERROR)
      else Ok(Emit(st, Halt, -1))
  }
}
