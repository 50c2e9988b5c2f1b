/** The LOOPS flag of a word (compile.c:540-552): it is set if and only if some `exit` of the word
    stands inside a do-loop, so that the native backends know when cells must be cut off. */
module LoopsFlag {
  import opened Common
  import opened Fragments
  import opened FrontEnd
  import opened Conservation
  import opened Grammar
  import opened Structured
  import opened Program
  import opened NestedCalls

  /** Some `exit` of s stands under a do-loop; `inLoop` says that s itself does. */
  function LeaveUnder(s: Stmt, inLoop: bool): bool {
    match s
    case Leave => inLoop
    case Chain(a, b) => LeaveUnder(a, inLoop) || LeaveUnder(b, inLoop)
    case IfThen(b) => LeaveUnder(b, inLoop)
    case IfElse(a, b) => LeaveUnder(a, inLoop) || LeaveUnder(b, inLoop)
    case BeginUntil(b) => LeaveUnder(b, inLoop)
    case BeginAgain(b) => LeaveUnder(b, inLoop)
    case BeginWhile(c, b) => LeaveUnder(c, inLoop) || LeaveUnder(b, inLoop)
    case DoLoop(b) => LeaveUnder(b, true)
    case Empty => false
    case Prim(_, _) => false
    case Call(_) => false
    case TickWord(_) => false
    case SelfCall => false
    case Unlooped => false
  }

  // ----- the same, read off the tokens -----

  /** How many loops are open, and the flag of each word so far. */
  datatype Scan = Scan(depth: nat, flags: seq<bool>)

  function OrLast(flags: seq<bool>, b: bool): seq<bool> {
    if flags == [] || !b then flags else flags[|flags| - 1 := true]
  }

  function ScanToken(sc: Scan, t: Token): Scan {
    match t
    case Colon => sc.(flags := sc.flags + [false])
    case Exit => sc.(flags := OrLast(sc.flags, sc.depth > 0))
    case DoWord => sc.(depth := sc.depth + 1)
    case LoopWord => sc.(depth := if sc.depth > 0 then sc.depth - 1 else 0)
    case _ => sc
  }

  function ScanTokens(sc: Scan, ts: seq<Token>): Scan
    decreases |ts|
  {
    if ts == [] then sc else ScanTokens(ScanToken(sc, ts[0]), ts[1..])
  }

  lemma {:induction false} ScanOne(sc: Scan, t: Token, rest: seq<Token>)
    ensures ScanTokens(sc, [t] + rest) == ScanTokens(ScanToken(sc, t), rest)
  {
    hide ScanToken;
    assert ([t] + rest)[1..] == rest;
  }

  lemma {:induction false} OrTwice(flags: seq<bool>, a: bool, b: bool)
    ensures OrLast(OrLast(flags, a), b) == OrLast(flags, a || b)
  {
  }

  /** The scan after a structured statement. */
  function Past(sc: Scan, s: Stmt): Scan {
    sc.(flags := OrLast(sc.flags, LeaveUnder(s, sc.depth > 0)))
  }

  lemma {:induction false} PastTwice(sc: Scan, a: Stmt, b: Stmt, s: Stmt)
    requires LeaveUnder(s, sc.depth > 0) == (LeaveUnder(a, sc.depth > 0) || LeaveUnder(b, sc.depth > 0))
    ensures Past(Past(sc, a), b) == Past(sc, s)
  {
    hide LeaveUnder;
    OrTwice(sc.flags, LeaveUnder(a, sc.depth > 0), LeaveUnder(b, sc.depth > 0));
  }

  lemma {:induction false} PastLoop(sc: Scan, b: Stmt)
    ensures ScanToken(Past(ScanToken(sc, DoWord), b), LoopWord) == Past(sc, DoLoop(b))
  {
  }

  /** A word of the text that neither opens nor closes a do-loop nor leaves a word. */
  predicate IsNeutral(t: Token) {
    !t.Colon? && !t.Exit? && !t.DoWord? && !t.LoopWord?
  }

  lemma {:induction false} ScanNeutral(sc: Scan, t: Token, rest: seq<Token>)
    requires IsNeutral(t)
    ensures ScanTokens(sc, [t] + rest) == ScanTokens(sc, rest)
  {
    hide ScanTokens;
    ScanOne(sc, t, rest);
  }

  lemma {:induction false} PastNothing(sc: Scan, s: Stmt)
    requires !LeaveUnder(s, sc.depth > 0)
    ensures Past(sc, s) == sc
  {
  }

  lemma {:induction false} ScanAtom(sc: Scan, s: Stmt, rest: seq<Token>)
    requires s.Empty? || s.Prim? || s.Call? || s.TickWord? || s.SelfCall? || s.Leave? || s.Unlooped?
    ensures ScanTokens(sc, Text(s, rest)) == ScanTokens(Past(sc, s), rest)
  {
    hide ScanTokens;
    if s.Leave? {
      ScanOne(sc, Exit, rest);
    } else {
      PastNothing(sc, s);
      if !s.Empty? { ScanNeutral(sc, Text(s, rest)[0], rest); }
    }
  }

  /** Scanning the text of a statement finds what its structure says. */
  lemma {:induction false} ScanText(sc: Scan, s: Stmt, rest: seq<Token>)
    ensures ScanTokens(sc, Text(s, rest)) == ScanTokens(Past(sc, s), rest)
    decreases s
  {
    hide ScanTokens, ScanToken, Past, OrLast;
    match s
    case Chain(a, b) =>
      ScanText(sc, a, Text(b, rest));
      ScanText(Past(sc, a), b, rest);
      PastTwice(sc, a, b, s);
    case IfThen(b) =>
      ScanNeutral(sc, If, Text(b, [Then] + rest));
      ScanText(sc, b, [Then] + rest);
      ScanNeutral(Past(sc, b), Then, rest);
      SamePast(sc, b, s);
    case IfElse(a, b) =>
      ScanNeutral(sc, If, Text(a, [Else] + Text(b, [Then] + rest)));
      ScanText(sc, a, [Else] + Text(b, [Then] + rest));
      ScanNeutral(Past(sc, a), Else, Text(b, [Then] + rest));
      ScanText(Past(sc, a), b, [Then] + rest);
      ScanNeutral(Past(Past(sc, a), b), Then, rest);
      PastTwice(sc, a, b, s);
    case BeginUntil(b) =>
      ScanNeutral(sc, Begin, Text(b, [Until] + rest));
      ScanText(sc, b, [Until] + rest);
      ScanNeutral(Past(sc, b), Until, rest);
      SamePast(sc, b, s);
    case BeginAgain(b) =>
      ScanNeutral(sc, Begin, Text(b, [Again] + rest));
      ScanText(sc, b, [Again] + rest);
      ScanNeutral(Past(sc, b), Again, rest);
      SamePast(sc, b, s);
    case BeginWhile(c, b) =>
      ScanNeutral(sc, Begin, Text(c, [While] + Text(b, [Repeat] + rest)));
      ScanText(sc, c, [While] + Text(b, [Repeat] + rest));
      ScanNeutral(Past(sc, c), While, Text(b, [Repeat] + rest));
      ScanText(Past(sc, c), b, [Repeat] + rest);
      ScanNeutral(Past(Past(sc, c), b), Repeat, rest);
      PastTwice(sc, c, b, s);
    case DoLoop(b) =>
      ScanOne(sc, DoWord, Text(b, [LoopWord] + rest));
      ScanText(ScanToken(sc, DoWord), b, [LoopWord] + rest);
      ScanOne(Past(ScanToken(sc, DoWord), b), LoopWord, rest);
      PastLoop(sc, b);
    case Empty => ScanAtom(sc, s, rest);
    case Prim(_, _) => ScanAtom(sc, s, rest);
    case Call(_) => ScanAtom(sc, s, rest);
    case TickWord(_) => ScanAtom(sc, s, rest);
    case SelfCall => ScanAtom(sc, s, rest);
    case Leave => ScanAtom(sc, s, rest);
    case Unlooped => ScanAtom(sc, s, rest);
  }

  lemma {:induction false} SamePast(sc: Scan, b: Stmt, s: Stmt)
    requires LeaveUnder(s, sc.depth > 0) == LeaveUnder(b, sc.depth > 0)
    ensures Past(sc, s) == Past(sc, b)
  {
    hide LeaveUnder;
  }

  // ----- a whole source -----

  /** The flags that the definitions of a source call for. */
  function FlagsOf(items: seq<Item>): seq<bool> {
    if items == [] then []
    else
      var last := items[|items| - 1];
      FlagsOf(items[..|items| - 1]) + if last.Definition? then [LeaveUnder(last.body, false)] else []
  }

  lemma {:induction false} FlagsPerWord(items: seq<Item>)
    ensures |FlagsOf(items)| == |Definitions(items)|
    ensures forall k :: 0 <= k < |FlagsOf(items)| ==> FlagsOf(items)[k] == LeaveUnder(Definitions(items)[k], false)
    decreases |items|
  {
    hide LeaveUnder;
    if items != [] { FlagsPerWord(items[..|items| - 1]); }
  }

  /** Outside words there is no `exit`. */
  lemma {:induction false} NoLeave(s: Stmt, words: nat, loops: nat, inLoop: bool)
    requires WellFormed(s, false, words, loops)
    ensures !LeaveUnder(s, inLoop)
  {
    match s
    case Chain(a, b) =>
      NoLeave(a, words, loops, inLoop);
      NoLeave(b, words, loops, inLoop);
    case IfThen(b) => NoLeave(b, words, loops, inLoop);
    case IfElse(a, b) =>
      NoLeave(a, words, loops, inLoop);
      NoLeave(b, words, loops, inLoop);
    case BeginUntil(b) => NoLeave(b, words, loops, inLoop);
    case BeginAgain(b) => NoLeave(b, words, loops, inLoop);
    case BeginWhile(c, b) =>
      NoLeave(c, words, loops, inLoop);
      NoLeave(b, words, loops, inLoop);
    case DoLoop(b) => NoLeave(b, words, loops + 1, true);
    case Empty =>
    case Prim(_, _) =>
    case Call(_) =>
    case TickWord(_) =>
    case SelfCall =>
    case Leave =>
    case Unlooped =>
  }

  lemma {:induction false} ScanItem(items: seq<Item>, rest: seq<Token>)
    requires items != [] && ItemWellFormed(items[|items| - 1], |Definitions(items[..|items| - 1])|)
    ensures ScanTokens(Scan(0, FlagsOf(items[..|items| - 1])), ItemText(items[|items| - 1], rest))
        == ScanTokens(Scan(0, FlagsOf(items)), rest)
  {
    hide ScanTokens, Text, LeaveUnder, WellFormed;
    var low, last := items[..|items| - 1], items[|items| - 1];
    var sc := Scan(0, FlagsOf(low));
    match last
    case Main(s) =>
      ScanText(sc, s, rest);
      NoLeave(s, |Definitions(low)|, 0, false);
      PastNothing(sc, s);
      assert FlagsOf(low) + [] == FlagsOf(low);
    case Definition(s) =>
      ScanOne(sc, Colon, Text(s, [Semicolon] + rest));
      var sc1 := Scan(0, FlagsOf(low) + [false]);
      ScanText(sc1, s, [Semicolon] + rest);
      ScanNeutral(Past(sc1, s), Semicolon, rest);
      assert OrLast(FlagsOf(low) + [false], LeaveUnder(s, false)) == FlagsOf(low) + [LeaveUnder(s, false)];
  }

  lemma {:induction false} ScanSource(items: seq<Item>, rest: seq<Token>)
    requires SourceWellFormed(items)
    ensures ScanTokens(Scan(0, []), SourceText(items, rest)) == ScanTokens(Scan(0, FlagsOf(items)), rest)
    decreases |items|
  {
    hide ScanTokens, ItemText, ItemWellFormed;
    if items != [] {
      var low, last := items[..|items| - 1], items[|items| - 1];
      ScanSource(low, ItemText(last, rest));
      ScanItem(items, rest);
    }
  }

  // ----- the compiler's flags -----

  ghost predicate WordFlag(st: State, sc: Scan, k: nat) {
    k < |st.words| && k < |sc.flags| && st.words[k] < |st.frags| && st.frags[st.words[k]].loops == sc.flags[k]
  }

  /** The compiler's control-flow stack and flags are those of the scan. */
  ghost predicate Agrees(st: State, sc: Scan) {
    && OpenLoops(st.cf) == sc.depth && |st.words| == |sc.flags|
    && forall k :: 0 <= k < |st.words| ==> WordFlag(st, sc, k)
  }

  lemma {:induction false} QuietAgrees(st: State, s1: State, sc: Scan, sc1: Scan)
    requires Agrees(st, sc) && Quiet(st, s1) && sc1.flags == sc.flags && sc1.depth == OpenLoops(s1.cf)
    ensures Agrees(s1, sc1)
  {
    hide OpenLoops;
    forall k | 0 <= k < |s1.words| ensures WordFlag(s1, sc1, k) {
      assert WordFlag(st, sc, k);
    }
  }

  lemma {:induction false} OpenLoopsOfPush(cf: seq<ControlFlow>, e: ControlFlow)
    ensures OpenLoops(cf + [e]) == OpenLoops(cf) + if e.kind.CfDo? then 1 else 0
  {
    assert (cf + [e])[..|cf|] == cf;
  }

  lemma {:induction false} OpenLoopsOfPop(st: State)
    requires st.cf != []
    ensures OpenLoops(st.cf) == OpenLoops(PopCf(st).cf) + if Top(st).kind.CfDo? then 1 else 0
  {
  }

  /** Only `loop` closes a do-loop entry. */
  lemma {:induction false} ClosedKind(lr: Option<Opcode -> bool>, st: State, t: Token)
    requires StepToken(lr, st, t).Ok? && IsCloser(t)
    ensures st.cf != [] && (Top(st).kind.CfDo? <==> t.LoopWord?)
  {
  }

  lemma {:induction false} ElseCf(lr: Option<Opcode -> bool>, st: State)
    requires StepToken(lr, st, Else).Ok?
    ensures st.cf != [] && !Top(st).kind.CfDo?
    ensures StepToken(lr, st, Else).value.cf == PopCf(st).cf + [ControlFlow(CfElse, |st.frags|)]
  {
  }

  lemma {:induction false} RepeatKinds(lr: Option<Opcode -> bool>, st: State)
    requires StepToken(lr, st, Repeat).Ok?
    ensures |st.cf| > 1 && !Top(st).kind.CfDo? && !Top(PopCf(st)).kind.CfDo?
  {
  }

  /** What a token does to the number of open loops. */
  lemma {:induction false} DepthOf(lr: Option<Opcode -> bool>, st: State, t: Token)
    requires StepToken(lr, st, t).Ok? && !EndsWord(t)
    ensures OpenLoops(StepToken(lr, st, t).value.cf) == ScanToken(Scan(OpenLoops(st.cf), []), t).depth
  {
    hide StepToken, OpenLoops, WellFormed;
    if IsAtom(t) {
      AtomStep(lr, st, t);
    } else if IsOpener(t) {
      var e := OpenerStep(lr, st, t, Empty);
      OpenLoopsOfPush(st.cf, e);
    } else if IsCloser(t) {
      CloserStep(lr, st, t);
      ClosedKind(lr, st, t);
      OpenLoopsOfPop(st);
    } else if t.Else? {
      ElseCf(lr, st);
      OpenLoopsOfPop(st);
      OpenLoopsOfPush(PopCf(st).cf, ControlFlow(CfElse, |st.frags|));
    } else {
      RepeatStep(lr, st);
      RepeatKinds(lr, st);
      OpenLoopsOfPop(st);
      OpenLoopsOfPop(PopCf(st));
    }
  }

  lemma {:induction false} ScanKeepsFlags(sc: Scan, t: Token)
    requires !EndsWord(t)
    ensures ScanToken(sc, t).flags == sc.flags && ScanToken(sc, t).depth == ScanToken(Scan(sc.depth, []), t).depth
  {
  }

  lemma {:induction false} ColonAgrees(lr: Option<Opcode -> bool>, st: State, sc: Scan)
    requires Agrees(st, sc) && StepToken(lr, st, Colon).Ok?
    ensures Agrees(StepToken(lr, st, Colon).value, ScanToken(sc, Colon))
  {
    hide OpenLoops;
    var s1 := StepToken(lr, st, Colon).value;
    forall k | 0 <= k < |s1.words| ensures WordFlag(s1, ScanToken(sc, Colon), k) {
      if k < |st.words| { assert WordFlag(st, sc, k); }
    }
  }

  lemma {:induction false} CallsAside(lr: Option<Opcode -> bool>, st: State)
    requires st.words != [] && Current(st) < |st.frags|
    ensures var s1 := UpdateCalls(lr, st);
      && s1.words == st.words && s1.cf == st.cf && |s1.frags| == |st.frags| && s1.defining == st.defining
      && forall i :: 0 <= i < |st.frags| ==> s1.frags[i].loops == st.frags[i].loops
  {
    hide ScanBack;
  }

  lemma {:induction false} MarkSets(st: State)
    requires st.words != [] && Current(st) < |st.frags|
    ensures var s1 := MarkLoops(st);
      && s1.words == st.words && s1.cf == st.cf && |s1.frags| == |st.frags|
      && forall i :: 0 <= i < |st.frags| ==>
          s1.frags[i].loops == (st.frags[i].loops || (i == Current(st) && OpenLoops(st.cf) > 0))
  {
    hide OpenLoops;
  }

  /** After the fragment of an exit: only the flag of the current word can have changed. */
  lemma {:induction false} ExitFlags(lr: Option<Opcode -> bool>, st: State, t: Token)
    requires StepToken(lr, st, t).Ok? && (t.Exit? || t.Semicolon?)
    ensures st.words != [] && Current(st) < |st.frags|
    ensures var s1 := StepToken(lr, st, t).value;
      && s1.words == st.words && s1.cf == st.cf && |s1.frags| == |st.frags| + 1
      && forall i :: 0 <= i < |st.frags| ==>
           s1.frags[i].loops == (st.frags[i].loops || (t.Exit? && i == Current(st) && OpenLoops(st.cf) > 0))
  {
    hide OpenLoops, UpdateCalls, MarkLoops;
    var s1 := Emit(st, ExitWord, Current(st));
    CallsAside(lr, s1);
    MarkSets(s1);
    CallsAside(lr, MarkLoops(s1));
  }

  lemma {:induction false} ExitAgrees(lr: Option<Opcode -> bool>, st: State, sc: Scan, t: Token)
    requires Invariant(st) && Agrees(st, sc) && StepToken(lr, st, t).Ok? && (t.Exit? || t.Semicolon?)
    ensures Agrees(StepToken(lr, st, t).value, ScanToken(sc, t))
  {
    hide Invariant, StepToken, OpenLoops;
    ExitFlags(lr, st, t);
    WordsApart(st);
    var s1 := StepToken(lr, st, t).value;
    forall k | 0 <= k < |s1.words| ensures WordFlag(s1, ScanToken(sc, t), k) {
      assert WordFlag(st, sc, k);
    }
  }

  lemma {:induction false} WordsApart(st: State)
    requires Invariant(st)
    ensures forall j, k :: 0 <= j < k < |st.words| ==> st.words[j] < st.words[k]
  {
    hide Counted, ControlOk, TargetsOk;
  }

  lemma {:induction false} StepAgrees(lr: Option<Opcode -> bool>, st: State, sc: Scan, t: Token)
    requires Invariant(st) && Agrees(st, sc) && StepToken(lr, st, t).Ok?
    ensures Agrees(StepToken(lr, st, t).value, ScanToken(sc, t))
  {
    hide Invariant, StepToken, OpenLoops, ScanToken, WordFlag;
    PlacedPlusPending(st);
    if !EndsWord(t) {
      OtherIsQuiet(lr, st, t);
      DepthOf(lr, st, t);
      ScanKeepsFlags(sc, t);
      QuietAgrees(st, StepToken(lr, st, t).value, sc, ScanToken(sc, t));
    } else if t.Colon? {
      ColonAgrees(lr, st, sc);
    } else {
      ExitAgrees(lr, st, sc, t);
    }
  }

  lemma {:induction false} RunAgrees(lr: Option<Opcode -> bool>, st: State, sc: Scan, ts: seq<Token>)
    requires Invariant(st) && Agrees(st, sc) && RunTokens(lr, st, ts).Ok?
    ensures Agrees(RunTokens(lr, st, ts).value, ScanTokens(sc, ts))
    decreases |ts|
  {
    hide Invariant, StepToken, Agrees, ScanToken;
    if ts != [] {
      StepKeepsInvariant(lr, st, ts[0]);
      StepAgrees(lr, st, sc, ts[0]);
      RunAgrees(lr, StepToken(lr, st, ts[0]).value, ScanToken(sc, ts[0]), ts[1..]);
    }
  }

  lemma {:induction false} HaltAgrees(st: State, sc: Scan)
    requires Agrees(st, sc)
    ensures Agrees(Emit(st, Halt, -1), sc)
  {
    hide OpenLoops;
    var s1 := Emit(st, Halt, -1);
    forall k | 0 <= k < |s1.words| ensures WordFlag(s1, sc, k) {
      assert WordFlag(st, sc, k);
    }
  }

  /** For every source the compiler accepts, the flag of each word is set if and only if some
      `exit` of its body stands under a do-loop. */
  lemma {:induction false} LoopsFlagIsExact(lr: Option<Opcode -> bool>, items: seq<Item>, k: nat)
    requires SourceWellFormed(items) && k < |Definitions(items)|
    ensures Compiled(lr, SourceText(items, [])).Ok?
    ensures var st := Compiled(lr, SourceText(items, [])).value;
      && |st.words| == |Definitions(items)| && st.words[k] < |st.frags|
      && (st.frags[st.words[k]].loops <==> LeaveUnder(Definitions(items)[k], false))
  {
    hide SourceWellFormed, SourceText, Invariant, RunTokens, LeaveUnder, Definitions, FlagsOf, AllPlaced;
    var ts := SourceText(items, []);
    StructuredIsAccepted(lr, items);
    InitialInvariant();
    RunAgrees(lr, InitialState(), Scan(0, []), ts);
    ScanSource(items, []);
    FlagsPerWord(items);
    var st := RunTokens(lr, InitialState(), ts).value;
    HaltAgrees(st, ScanTokens(Scan(0, []), ts));
    assert WordFlag(Compiled(lr, ts).value, Scan(0, FlagsOf(items)), k);
  }
}
