/** Which sources are refused, at which word and with which error (compile.c:475-788): at the first
    word after which nothing could be added to make a source, with an error that only depends on
    what is open at that point; or at the end, when something is missing. */
module Refusals {
  import opened Common
  import opened Fragments
  import opened FrontEnd
  import opened Conservation
  import opened Grammar
  import opened Program

  // ----- what is open -----

  /** What the words so far leave open: a definition, and the kinds of open control flow; and how many
      words they have defined. */
  datatype Open = Open(inWord: bool, kinds: seq<ControlKind>, words: nat)

  function DropLast(kinds: seq<ControlKind>, n: nat): seq<ControlKind> {
    if n <= |kinds| then kinds[..|kinds| - n] else []
  }

  function After(o: Open, t: Token): Open {
    match t
    case Colon => Open(true, o.kinds, o.words + 1)
    case Semicolon => o.(inWord := false)
    case If => o.(kinds := o.kinds + [CfIf])
    case Else => o.(kinds := DropLast(o.kinds, 1) + [CfElse])
    case Then => o.(kinds := DropLast(o.kinds, 1))
    case DoWord => o.(kinds := o.kinds + [CfDo])
    case LoopWord => o.(kinds := DropLast(o.kinds, 1))
    case Begin => o.(kinds := o.kinds + [CfBegin])
    case While => o.(kinds := o.kinds + [CfWhile])
    case Until => o.(kinds := DropLast(o.kinds, 1))
    case Again => o.(kinds := DropLast(o.kinds, 1))
    case Repeat => o.(kinds := DropLast(o.kinds, 2))
    case _ => o
  }

  function AfterAll(o: Open, ts: seq<Token>): Open
    decreases |ts|
  {
    if ts == [] then o else AfterAll(After(o, ts[0]), ts[1..])
  }

  function LoopsAmong(kinds: seq<ControlKind>): nat {
    if kinds == [] then 0 else LoopsAmong(kinds[..|kinds| - 1]) + if kinds[|kinds| - 1].CfDo? then 1 else 0
  }

  // ----- the errors -----

  /** The kinds of control flow that a terminator may close. */
  function Closes(t: Token): set<ControlKind> {
    match t
    case Then => {CfIf, CfElse}
    case Else => {CfIf}
    case LoopWord => {CfDo}
    case Until => {CfBegin}
    case Again => {CfBegin}
    case While => {CfBegin}
    case Repeat => {CfWhile}
    case _ => {}
  }

  /** The error that a word raises; 0 when it raises none. */
  function Refusal(o: Open, t: Token): int {
    if Closes(t) != {} then
      if o.kinds == [] then UNEXPECTED_CONTROL_FLOW_TERMINATOR_ERROR
      else if o.kinds[|o.kinds| - 1] !in Closes(t) then WRONG_TERMINATOR_FOR_THIS_CONTROL_FLOW_ERROR
      else 0
    else
      match t
      case Plain(op, n) =>
        if !IsPlain(op) then UNKNOWN_ERROR
        else if IsDeclaration(op) && o.inWord then NOT_ALLOWED_INSIDE_WORD_ERROR
        else if op == BuiltinWord && n == I_WORD && LoopsAmong(o.kinds) < 1 then LOOP_INDEX_USED_OUTSIDE_LOOP
        else if op == BuiltinWord && n == J_WORD && LoopsAmong(o.kinds) < 2 then LOOP_INDEX_USED_OUTSIDE_LOOP
        else 0
      case CallWord(k) => if k < o.words then 0 else UNKNOWN_ERROR
      case Tick(k) => if k < o.words then 0 else UNKNOWN_ERROR
      case Recurse => if o.inWord then 0 else NOT_ALLOWED_OUTSIDE_WORD_ERROR
      case Exit => if o.inWord then 0 else NOT_ALLOWED_OUTSIDE_WORD_ERROR
      case Colon =>
        if o.inWord then NOT_ALLOWED_INSIDE_WORD_ERROR
        else if o.kinds != [] then UNTERMINATED_CONTROL_FLOW_ERROR
        else 0
      case Semicolon =>
        if !o.inWord then UNEXPECTED_SEMICOLON_ERROR
        else if o.kinds != [] then UNTERMINATED_CONTROL_FLOW_ERROR
        else 0
      case _ => 0
  }

  // ----- the compiler's state -----

  function Kinds(cf: seq<ControlFlow>): (kinds: seq<ControlKind>)
    ensures |kinds| == |cf|
  {
    if cf == [] then [] else Kinds(cf[..|cf| - 1]) + [cf[|cf| - 1].kind]
  }

  function OpenOf(st: State): Open {
    Open(st.defining, Kinds(st.cf), |st.words|)
  }

  lemma {:induction false} KindsOfPush(cf: seq<ControlFlow>, kind: ControlKind, id: nat)
    ensures Kinds(cf + [ControlFlow(kind, id)]) == Kinds(cf) + [kind]
  {
    assert (cf + [ControlFlow(kind, id)])[..|cf|] == cf;
  }

  lemma {:induction false} KindsOfPop(st: State)
    requires st.cf != []
    ensures Kinds(st.cf) == Kinds(PopCf(st).cf) + [Top(st).kind]
    ensures DropLast(Kinds(st.cf), 1) == Kinds(PopCf(st).cf)
  {
  }

  lemma {:induction false} LoopsAgree(cf: seq<ControlFlow>)
    ensures OpenLoops(cf) == LoopsAmong(Kinds(cf))
  {
    if cf != [] {
      LoopsAgree(cf[..|cf| - 1]);
      assert Kinds(cf)[..|cf| - 1] == Kinds(cf[..|cf| - 1]);
    }
  }

  lemma {:induction false} WordIsReady(st: State)
    requires Invariant(st)
    ensures st.defining ==> st.words != []
    ensures st.words != [] ==> Current(st) < |st.frags|
  {
    hide Counted, ControlOk, TargetsOk;
    if st.words != [] { assert WordOk(st, st.words[|st.words| - 1]); }
  }

  /** The word is refused with the error that what is open calls for, or taken. */
  ghost predicate Decides(lr: Option<Opcode -> bool>, st: State, t: Token) {
    match StepToken(lr, st, t)
    case Err(e) => e != 0 && Refusal(OpenOf(st), t) == e
    case Ok(s1) => Refusal(OpenOf(st), t) == 0 && OpenOf(s1) == After(OpenOf(st), t)
  }

  lemma {:induction false} PlainDecides(lr: Option<Opcode -> bool>, st: State, t: Token)
    requires t.Plain? || t.CallWord? || t.Tick? || t.Unloop?
    ensures Decides(lr, st, t)
  {
    hide OpenLoops, LoopsAmong, Kinds;
    LoopsAgree(st.cf);
  }

  lemma {:induction false} EmitKeepsOpen(st: State, op: Opcode, param: int)
    ensures OpenOf(Emit(st, op, param)) == OpenOf(st) == OpenOf(Create(st, op, param))
    ensures Emit(st, op, param).words == st.words && Emit(st, op, param).cf == st.cf
    ensures Create(st, op, param).words == st.words && Create(st, op, param).cf == st.cf
    ensures |Emit(st, op, param).frags| == |st.frags| + 1 == |Create(st, op, param).frags|
  {
    hide Kinds;
  }

  lemma {:induction false} FlagsKeepOpen(lr: Option<Opcode -> bool>, st: State)
    requires st.words != [] && Current(st) < |st.frags|
    ensures OpenOf(UpdateCalls(lr, st)) == OpenOf(st) && OpenOf(UpdateCalls(lr, MarkLoops(st))) == OpenOf(st)
  {
    hide Kinds, ScanBack, OpenLoops;
  }

  lemma {:induction false} WordDecides(lr: Option<Opcode -> bool>, st: State, t: Token)
    requires Invariant(st) && (t.Recurse? || t.Colon? || t.Semicolon? || t.Exit?)
    ensures Decides(lr, st, t)
  {
    hide Invariant, Kinds, Emit, UpdateCalls, MarkLoops;
    WordIsReady(st);
    EmitKeepsOpen(st.(defining := true), DefinedWordLocation, 0);
    if st.words != [] {
      EmitKeepsOpen(st, DefinedWord, Current(st));
      EmitKeepsOpen(st, ExitWord, Current(st));
      if Current(st) < |st.frags| { FlagsKeepOpen(lr, Emit(st, ExitWord, Current(st))); }
    }
  }

  lemma {:induction false} OpenerDecides(lr: Option<Opcode -> bool>, st: State, t: Token)
    requires t.If? || t.DoWord? || t.Begin?
    ensures Decides(lr, st, t)
  {
    hide Kinds;
    KindsOfPush(st.cf, if t.If? then CfIf else if t.DoWord? then CfDo else CfBegin,
        if t.DoWord? then |st.frags| + 1 else |st.frags|);
  }

  /** The three ways in which a terminator can find things. */
  function Found(st: State, t: Token): int {
    if st.cf == [] then UNEXPECTED_CONTROL_FLOW_TERMINATOR_ERROR
    else if Top(st).kind !in Closes(t) then WRONG_TERMINATOR_FOR_THIS_CONTROL_FLOW_ERROR
    else 0
  }

  lemma {:induction false} CloserLeaves(lr: Option<Opcode -> bool>, st: State, t: Token)
    requires t.Then? || t.LoopWord? || t.Until? || t.Again?
    ensures Found(st, t) != 0 ==> StepToken(lr, st, t) == Err(Found(st, t))
    ensures Found(st, t) == 0 ==> var s1 := StepToken(lr, st, t); s1.Ok? && OpenOf(s1.value) == OpenOf(PopCf(st))
  {
    hide Kinds;
  }

  lemma {:induction false} FoundIsRefusal(st: State, t: Token)
    requires Closes(t) != {}
    ensures Refusal(OpenOf(st), t) == Found(st, t)
  {
    hide Kinds, Closes;
    if st.cf != [] { KindsOfPop(st); }
  }

  lemma {:induction false} CloserDecides(lr: Option<Opcode -> bool>, st: State, t: Token)
    requires t.Then? || t.LoopWord? || t.Until? || t.Again?
    ensures Decides(lr, st, t)
  {
    hide Kinds, StepToken, Refusal;
    CloserLeaves(lr, st, t);
    FoundIsRefusal(st, t);
    if st.cf != [] { KindsOfPop(st); }
  }

  lemma {:induction false} TurnDecides(lr: Option<Opcode -> bool>, st: State, t: Token)
    requires t.Else? || t.While?
    ensures Decides(lr, st, t)
  {
    hide Kinds;
    if st.cf != [] {
      KindsOfPop(st);
      KindsOfPush(PopCf(st).cf, CfElse, |st.frags|);
      KindsOfPush(st.cf, CfWhile, |st.frags|);
    }
  }

  lemma {:induction false} RepeatDecides(lr: Option<Opcode -> bool>, st: State)
    requires Invariant(st)
    ensures Decides(lr, st, Repeat)
  {
    hide Kinds, Invariant;
    if st.cf != [] {
      KindsOfPop(st);
      if Top(st).kind.CfWhile? {
        RepeatChecksNeverFail(lr, st);
        KindsOfPop(PopCf(st));
        RepeatLeaves(lr, st);
        TwoDropped(Kinds(st.cf));
      }
    }
  }

  lemma {:induction false} RepeatLeaves(lr: Option<Opcode -> bool>, st: State)
    requires |st.cf| > 1 && StepToken(lr, st, Repeat).Ok?
    ensures OpenOf(StepToken(lr, st, Repeat).value) == OpenOf(PopCf(PopCf(st)))
  {
    hide Kinds;
  }

  lemma {:induction false} TwoDropped(kinds: seq<ControlKind>)
    requires |kinds| > 1
    ensures DropLast(DropLast(kinds, 1), 1) == DropLast(kinds, 2)
  {
  }

  lemma {:induction false} StepDecides(lr: Option<Opcode -> bool>, st: State, t: Token)
    requires Invariant(st)
    ensures Decides(lr, st, t)
  {
    hide Invariant, Decides;
    if t.Plain? || t.CallWord? || t.Tick? || t.Unloop? { PlainDecides(lr, st, t); }
    else if t.Recurse? || t.Colon? || t.Semicolon? || t.Exit? { WordDecides(lr, st, t); }
    else if t.If? || t.DoWord? || t.Begin? { OpenerDecides(lr, st, t); }
    else if t.Else? || t.While? { TurnDecides(lr, st, t); }
    else if t.Repeat? { RepeatDecides(lr, st); }
    else { CloserDecides(lr, st, t); }
  }

  // ----- what can still become a source -----

  lemma {:induction false} RunOver(lr: Option<Opcode -> bool>, st: State, a: seq<Token>, b: seq<Token>)
    ensures RunTokens(lr, st, a).Ok? ==> RunTokens(lr, st, a + b) == RunTokens(lr, RunTokens(lr, st, a).value, b)
    ensures RunTokens(lr, st, a).Err? ==> RunTokens(lr, st, a + b) == RunTokens(lr, st, a)
    decreases |a|
  {
    hide StepToken;
    if a == [] {
      assert [] + b == b;
    } else {
      assert (a + b)[0] == a[0] && (a + b)[1..] == a[1..] + b;
      if StepToken(lr, st, a[0]).Ok? { RunOver(lr, StepToken(lr, st, a[0]).value, a[1..], b); }
    }
  }

  /** The word that closes what is open innermost. */
  function Closer(kind: ControlKind): Token {
    match kind
    case CfIf => Then
    case CfElse => Then
    case CfDo => LoopWord
    case CfBegin => Again
    case CfWhile => Repeat
  }

  lemma {:induction false} CloserCloses(lr: Option<Opcode -> bool>, st: State)
    requires Invariant(st) && st.cf != []
    ensures var s1 := StepToken(lr, st, Closer(Top(st).kind)); s1.Ok? && |s1.value.cf| < |st.cf|
  {
    hide Invariant;
    if Top(st).kind.CfWhile? { RepeatChecksNeverFail(lr, st); }
  }

  lemma {:induction false} SemicolonEnds(lr: Option<Opcode -> bool>, st: State)
    requires Invariant(st) && st.defining && st.cf == []
    ensures var s1 := StepToken(lr, st, Semicolon); s1.Ok? && s1.value.cf == [] && !s1.value.defining
  {
    hide Invariant, ScanBack;
    WordIsReady(st);
  }

  /** Whatever is open can be closed. */
  lemma {:induction false} CanBeCompleted(lr: Option<Opcode -> bool>, st: State) returns (rest: seq<Token>)
    requires Invariant(st)
    ensures var s1 := RunTokens(lr, st, rest); s1.Ok? && s1.value.cf == [] && !s1.value.defining
    decreases |st.cf|, st.defining
  {
    hide Invariant, StepToken;
    if st.cf == [] && !st.defining {
      rest := [];
    } else {
      var t := if st.cf == [] then Semicolon else Closer(Top(st).kind);
      if st.cf == [] { SemicolonEnds(lr, st); } else { CloserCloses(lr, st); }
      StepKeepsInvariant(lr, st, t);
      var s1 := StepToken(lr, st, t).value;
      rest := CanBeCompleted(lr, s1);
      assert ([t] + rest)[0] == t && ([t] + rest)[1..] == rest;
      rest := [t] + rest;
    }
  }

  /** Something can be added to these words to make the text of a well-formed source. */
  ghost predicate Extendable(ts: seq<Token>) {
    exists rest, items :: SourceWellFormed(items) && SourceText(items, []) == ts + rest
  }

  lemma {:induction false} Extends(ts: seq<Token>, rest: seq<Token>, items: seq<Item>)
    requires SourceWellFormed(items) && ts + rest == SourceText(items, [])
    ensures Extendable(ts)
  {
    hide SourceWellFormed, SourceText;
  }

  lemma {:induction false} EndsWell(lr: Option<Opcode -> bool>, ts: seq<Token>)
    requires var s1 := RunTokens(lr, InitialState(), ts); s1.Ok? && s1.value.cf == [] && !s1.value.defining
    ensures Compiled(lr, ts).Ok?
  {
    hide RunTokens, InitialState;
  }

  lemma {:induction false} CompiledRuns(lr: Option<Opcode -> bool>, ts: seq<Token>)
    requires Compiled(lr, ts).Ok?
    ensures RunTokens(lr, InitialState(), ts).Ok?
  {
    hide RunTokens, InitialState;
  }

  /** The token loop goes through exactly the beginnings of sources. */
  lemma {:induction false} PrefixesExactly(lr: Option<Opcode -> bool>, ts: seq<Token>)
    ensures RunTokens(lr, InitialState(), ts).Ok? <==> Extendable(ts)
  {
    hide SourceWellFormed, SourceText, RunTokens, Invariant, AllPlaced, Compiled;
    if RunTokens(lr, InitialState(), ts).Ok? {
      InitialInvariant();
      RunKeepsInvariant(lr, InitialState(), ts);
      var rest := CanBeCompleted(lr, RunTokens(lr, InitialState(), ts).value);
      RunOver(lr, InitialState(), ts, rest);
      EndsWell(lr, ts + rest);
      AcceptanceIsExact(lr, ts + rest);
      var items :| SourceWellFormed(items) && ts + rest == SourceText(items, []);
      Extends(ts, rest, items);
    }
    if Extendable(ts) {
      var rest, items :| SourceWellFormed(items) && SourceText(items, []) == ts + rest;
      StructuredIsAccepted(lr, items);
      CompiledRuns(lr, ts + rest);
      RunOver(lr, InitialState(), ts, rest);
    }
  }

  // ----- the error of a source -----

  lemma {:induction false} OpenAfterRun(lr: Option<Opcode -> bool>, st: State, ts: seq<Token>)
    requires Invariant(st) && RunTokens(lr, st, ts).Ok?
    ensures OpenOf(RunTokens(lr, st, ts).value) == AfterAll(OpenOf(st), ts)
    decreases |ts|
  {
    hide Invariant, StepToken, After, Refusal, OpenOf;
    if ts != [] {
      StepDecides(lr, st, ts[0]);
      StepKeepsInvariant(lr, st, ts[0]);
      OpenAfterRun(lr, StepToken(lr, st, ts[0]).value, ts[1..]);
    }
  }

  /** The first word that the token loop does not take. */
  lemma {:induction false} FirstRefused(lr: Option<Opcode -> bool>, st: State, ts: seq<Token>) returns (i: nat)
    requires RunTokens(lr, st, ts).Err?
    ensures i < |ts| && RunTokens(lr, st, ts[..i]).Ok?
    ensures StepToken(lr, RunTokens(lr, st, ts[..i]).value, ts[i]) == RunTokens(lr, st, ts)
    decreases |ts|
  {
    hide StepToken;
    if StepToken(lr, st, ts[0]).Err? {
      i := 0;
      assert ts[..0] == [] && RunTokens(lr, st, []) == Ok(st);
    } else {
      var s1 := StepToken(lr, st, ts[0]).value;
      i := FirstRefused(lr, s1, ts[1..]);
      assert ts[1..][..i] == ts[..i + 1][1..] && ts[1..][i] == ts[i + 1] && ts[..i + 1][0] == ts[0];
      i := i + 1;
    }
  }

  const NOTHING_OPEN := Open(false, [], 0)

  lemma {:induction false} OpenAtFirst()
    ensures OpenOf(InitialState()) == NOTHING_OPEN
  {
  }

  lemma {:induction false} OneMore(lr: Option<Opcode -> bool>, st: State, ts: seq<Token>, i: nat)
    requires i < |ts| && RunTokens(lr, st, ts[..i]).Ok?
    ensures RunTokens(lr, st, ts[..i + 1]) == StepToken(lr, RunTokens(lr, st, ts[..i]).value, ts[i])
  {
    hide StepToken;
    RunOver(lr, st, ts[..i], [ts[i]]);
    assert ts[..i] + [ts[i]] == ts[..i + 1];
    var s1 := RunTokens(lr, st, ts[..i]).value;
    assert [ts[i]][1..] == [] && RunTokens(lr, s1, [ts[i]]) == StepToken(lr, s1, ts[i]);
  }

  /** Every source that is refused: either there is a first word after which nothing could be added to
      make a source, and the error is the one that this word raises with what is open before it; or
      every word could go on, but a definition or control flow is open at the end. */
  lemma {:induction false} RefusedExactly(lr: Option<Opcode -> bool>, ts: seq<Token>) returns (i: nat)
    requires Compiled(lr, ts).Err?
    ensures i <= |ts| && Extendable(ts[..i])
    ensures i < |ts| ==>
      && !Extendable(ts[..i + 1]) && Refusal(AfterAll(NOTHING_OPEN, ts[..i]), ts[i]) == Compiled(lr, ts).code
    ensures i == |ts| ==>
      && Compiled(lr, ts).code == EARLY_END_OF_SOURCE_ERROR
      && (AfterAll(NOTHING_OPEN, ts).inWord || AfterAll(NOTHING_OPEN, ts).kinds != [])
  {
    hide Extendable, RunTokens, StepToken, Invariant, Refusal, AfterAll, OpenOf;
    InitialInvariant();
    OpenAtFirst();
    if RunTokens(lr, InitialState(), ts).Err? {
      i := FirstRefused(lr, InitialState(), ts);
      PrefixesExactly(lr, ts[..i]);
      RunKeepsInvariant(lr, InitialState(), ts[..i]);
      OpenAfterRun(lr, InitialState(), ts[..i]);
      StepDecides(lr, RunTokens(lr, InitialState(), ts[..i]).value, ts[i]);
      OneMore(lr, InitialState(), ts, i);
      PrefixesExactly(lr, ts[..i + 1]);
    } else {
      i := |ts|;
      assert ts[..i] == ts;
      PrefixesExactly(lr, ts);
      OpenAfterRun(lr, InitialState(), ts);
      OpenShows(RunTokens(lr, InitialState(), ts).value);
    }
  }

  lemma {:induction false} OpenShows(st: State)
    ensures OpenOf(st).inWord == st.defining && (OpenOf(st).kinds == [] <==> st.cf == [])
  {
  }
}
