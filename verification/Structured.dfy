/** The token loop accepts exactly the well-nested sources: every accepted token sequence is
    the text of a structured program, and every well-formed structured program is accepted and
    its fragments are placed as structured control flow calls for. */
module Structured {
  import opened Common
  import opened Fragments
  import opened FrontEnd
  import opened Grammar

  // ----- reading structure off the control-flow stack -----

  /** What was read before an open control-flow entry, back to the entry below it. */
  datatype Context =
    | InIf(before: Stmt)
    | InElse(before: Stmt, yes: Stmt)
    | InDo(before: Stmt)
    | InBegin(before: Stmt)
    | InWhile(cond: Stmt)

  function KindOf(x: Context): ControlKind {
    match x
    case InIf(_) => CfIf
    case InElse(_, _) => CfElse
    case InDo(_) => CfDo
    case InBegin(_) => CfBegin
    case InWhile(_) => CfWhile
  }

  datatype Parse = Parse(items: seq<Item>, contexts: seq<Context>, current: Stmt, inWord: bool)

  function ContextText(x: Context, rest: seq<Token>): seq<Token> {
    match x
    case InIf(b) => Text(b, [If] + rest)
    case InElse(b, y) => Text(b, [If] + Text(y, [Else] + rest))
    case InDo(b) => Text(b, [DoWord] + rest)
    case InBegin(b) => Text(b, [Begin] + rest)
    case InWhile(c) => Text(c, [While] + rest)
  }

  function ContextsText(xs: seq<Context>, rest: seq<Token>): seq<Token> {
    if xs == [] then rest else ContextsText(xs[..|xs| - 1], ContextText(xs[|xs| - 1], rest))
  }

  /** The tokens read so far, followed by `rest`. */
  function Unparse(p: Parse, rest: seq<Token>): seq<Token> {
    var text := ContextsText(p.contexts, Text(p.current, rest));
    SourceText(p.items, if p.inWord then [Colon] + text else text)
  }

  function Last(xs: seq<Context>): Context
    requires xs != []
  {
    xs[|xs| - 1]
  }

  function Under(p: Parse, current: Stmt): Parse
    requires p.contexts != []
  {
    p.(contexts := p.contexts[..|p.contexts| - 1], current := current)
  }

  function Opened(p: Parse, x: Context): Parse {
    p.(contexts := p.contexts + [x], current := Empty)
  }

  function Then1(p: Parse, s: Stmt): Parse {
    p.(current := Chain(p.current, s))
  }

  /** How one accepted token extends the structure. */
  function ParseToken(p: Parse, t: Token): Parse {
    var xs := p.contexts;
    match t
    case Plain(op, param) => Then1(p, Prim(op, param))
    case CallWord(k) => Then1(p, Call(k))
    case Tick(k) => Then1(p, TickWord(k))
    case Recurse => Then1(p, SelfCall)
    case Unloop => Then1(p, Unlooped)
    case Exit => Then1(p, Leave)
    case Colon => Parse(p.items + [Main(p.current)], [], Empty, true)
    case Semicolon => Parse(p.items + [Definition(p.current)], [], Empty, false)
    case If => Opened(p, InIf(p.current))
    case DoWord => Opened(p, InDo(p.current))
    case Begin => Opened(p, InBegin(p.current))
    case While => Opened(p, InWhile(p.current))
    case Then =>
      if xs != [] && Last(xs).InIf? then Under(p, Chain(Last(xs).before, IfThen(p.current)))
      else if xs != [] && Last(xs).InElse? then Under(p, Chain(Last(xs).before, IfElse(Last(xs).yes, p.current)))
      else p
    case Else =>
      if xs != [] && Last(xs).InIf? then Opened(Under(p, Empty), InElse(Last(xs).before, p.current)) else p
    case LoopWord => if xs != [] && Last(xs).InDo? then Under(p, Chain(Last(xs).before, DoLoop(p.current))) else p
    case Until => if xs != [] && Last(xs).InBegin? then Under(p, Chain(Last(xs).before, BeginUntil(p.current))) else p
    case Again => if xs != [] && Last(xs).InBegin? then Under(p, Chain(Last(xs).before, BeginAgain(p.current))) else p
    case Repeat =>
      var n := |xs|;
      if n > 1 && xs[n - 1].InWhile? && xs[n - 2].InBegin?
      then Under(Under(p, Empty), Chain(xs[n - 2].before, BeginWhile(xs[n - 1].cond, p.current)))
      else p
  }

  function WordsKnown(p: Parse): nat {
    |Definitions(p.items)| + if p.inWord then 1 else 0
  }

  ghost predicate ContextOk(x: Context, inWord: bool, words: nat, loops: nat) {
    match x
    case InIf(b) => WellFormed(b, inWord, words, loops)
    case InElse(b, y) => WellFormed(b, inWord, words, loops) && WellFormed(y, inWord, words, loops)
    case InDo(b) => WellFormed(b, inWord, words, loops)
    case InBegin(b) => WellFormed(b, inWord, words, loops)
    case InWhile(c) => WellFormed(c, inWord, words, loops)
  }

  ghost predicate ContextsOk(xs: seq<Context>, cf: seq<ControlFlow>, inWord: bool, words: nat) {
    if xs == [] || cf == [] then xs == [] && cf == []
    else
      var x, e, low := xs[|xs| - 1], cf[|cf| - 1], cf[..|cf| - 1];
      && ContextsOk(xs[..|xs| - 1], low, inWord, words)
      && e.kind == KindOf(x) && ContextOk(x, inWord, words, OpenLoops(low))
  }

  /** The structure read so far fits the compiler's state. */
  ghost predicate Fits(p: Parse, st: State) {
    && p.inWord == st.defining
    && |st.words| == WordsKnown(p)
    && SourceWellFormed(p.items)
    && ContextsOk(p.contexts, st.cf, p.inWord, WordsKnown(p))
    && WellFormed(p.current, p.inWord, WordsKnown(p), OpenLoops(st.cf))
  }

  // ----- the text grows by one token -----

  lemma {:induction false} SourcePush(items: seq<Item>, item: Item, rest: seq<Token>)
    ensures SourceText(items + [item], rest) == SourceText(items, ItemText(item, rest))
    ensures Definitions(items + [item]) == Definitions(items) + if item.Definition? then [item.body] else []
    ensures SourceWellFormed(items + [item]) == (SourceWellFormed(items) && ItemWellFormed(item, |Definitions(items)|))
  {
    assert (items + [item])[..|items|] == items;
  }

  lemma {:induction false} ContextsPush(xs: seq<Context>, x: Context, rest: seq<Token>)
    ensures ContextsText(xs + [x], rest) == ContextsText(xs, ContextText(x, rest))
  {
    assert (xs + [x])[..|xs|] == xs;
  }

  lemma {:induction false} AtomText(p: Parse, s: Stmt, t: Token, rest: seq<Token>)
    requires Text(s, rest) == [t] + rest
    ensures Unparse(Then1(p, s), rest) == Unparse(p, [t] + rest)
  {
    hide SourceText, ContextsText;
    assert Text(Chain(p.current, s), rest) == Text(p.current, Text(s, rest));
  }

  lemma {:induction false} OpenerText(p: Parse, x: Context, t: Token, rest: seq<Token>)
    requires ContextText(x, rest) == Text(p.current, [t] + rest)
    ensures Unparse(Opened(p, x), rest) == Unparse(p, [t] + rest)
  {
    hide SourceText, ContextsText, ContextText;
    assert Text(Empty, rest) == rest;
    ContextsPush(p.contexts, x, rest);
  }

  lemma {:induction false} UnderText(p: Parse, current: Stmt, t: Token, rest: seq<Token>)
    requires p.contexts != []
    requires Text(current, rest) == ContextText(Last(p.contexts), Text(p.current, [t] + rest))
    ensures Unparse(Under(p, current), rest) == Unparse(p, [t] + rest)
  {
    hide SourceText, ContextText, Text;
  }

  lemma {:induction false} ElseText(p: Parse, rest: seq<Token>)
    requires p.contexts != [] && Last(p.contexts).InIf?
    ensures Unparse(ParseToken(p, Else), rest) == Unparse(p, [Else] + rest)
  {
    var x := Last(p.contexts);
    var y := InElse(x.before, p.current);
    var low := p.contexts[..|p.contexts| - 1];
    assert ContextText(y, rest) == ContextText(x, Text(p.current, [Else] + rest));
    assert Text(Empty, rest) == rest;
    assert ParseToken(p, Else) == p.(contexts := low + [y], current := Empty);
    ContextsPush(low, y, rest);
    hide SourceText, ContextText, Text, ParseToken;
  }

  lemma {:induction false} RepeatText(p: Parse, rest: seq<Token>)
    requires |p.contexts| > 1 && Last(p.contexts).InWhile? && p.contexts[|p.contexts| - 2].InBegin?
    ensures Unparse(ParseToken(p, Repeat), rest) == Unparse(p, [Repeat] + rest)
  {
    var n := |p.contexts|;
    var x, y := p.contexts[n - 2], p.contexts[n - 1];
    var low, up := p.contexts[..n - 2], p.contexts[..n - 1];
    assert up[..n - 2] == low && up[n - 2] == x;
    var s := Chain(x.before, BeginWhile(y.cond, p.current));
    var inner := Text(p.current, [Repeat] + rest);
    assert Text(s, rest) == Text(x.before, Text(BeginWhile(y.cond, p.current), rest));
    assert Text(s, rest) == ContextText(x, ContextText(y, inner));
    assert ParseToken(p, Repeat) == p.(contexts := low, current := s);
    hide SourceText, ContextText, Text, ParseToken;
    assert ContextsText(p.contexts, inner) == ContextsText(up, ContextText(y, inner));
  }

  lemma {:induction false} CloserText(p: Parse, t: Token, rest: seq<Token>)
    requires p.contexts != []
    requires || (t.Then? && (Last(p.contexts).InIf? || Last(p.contexts).InElse?))
             || (t.LoopWord? && Last(p.contexts).InDo?)
             || ((t.Until? || t.Again?) && Last(p.contexts).InBegin?)
    ensures Unparse(ParseToken(p, t), rest) == Unparse(p, [t] + rest)
  {
    var x := Last(p.contexts);
    var s := if t.Then? && x.InIf? then IfThen(p.current)
             else if t.Then? then IfElse(x.yes, p.current)
             else if t.LoopWord? then DoLoop(p.current)
             else if t.Until? then BeginUntil(p.current) else BeginAgain(p.current);
    assert Text(Chain(x.before, s), rest) == Text(x.before, Text(s, rest));
    assert ParseToken(p, t) == Under(p, Chain(x.before, s));
    hide ParseToken, Unparse;
    UnderText(p, Chain(x.before, s), t, rest);
  }

  lemma {:induction false} BoundaryText(p: Parse, t: Token, rest: seq<Token>)
    requires p.contexts == [] && t == if p.inWord then Semicolon else Colon
    ensures Unparse(ParseToken(p, t), rest) == Unparse(p, [t] + rest)
  {
    var item := if p.inWord then Definition(p.current) else Main(p.current);
    var q := ParseToken(p, t);
    assert q == Parse(p.items + [item], [], Empty, !p.inWord);
    assert Text(Empty, rest) == rest;
    assert ContextsText([], rest) == rest;
    assert ContextsText([], Text(p.current, [t] + rest)) == Text(p.current, [t] + rest);
    hide Text, ContextsText, ParseToken, SourceText;
    SourcePush(p.items, item, if p.inWord then rest else [Colon] + rest);
  }

  /** What an accepted token finds on top of the open contexts. */
  ghost predicate Fitting(p: Parse, t: Token) {
    var xs := p.contexts;
    match t
    case Colon => xs == [] && !p.inWord
    case Semicolon => xs == [] && p.inWord
    case Then => xs != [] && (Last(xs).InIf? || Last(xs).InElse?)
    case Else => xs != [] && Last(xs).InIf?
    case LoopWord => xs != [] && Last(xs).InDo?
    case Until => xs != [] && Last(xs).InBegin?
    case Again => xs != [] && Last(xs).InBegin?
    case While => xs != [] && Last(xs).InBegin?
    case Repeat => |xs| > 1 && Last(xs).InWhile? && xs[|xs| - 2].InBegin?
    case _ => true
  }

  lemma {:induction false} AcceptedIsFitting(lr: Option<Opcode -> bool>, p: Parse, st: State, t: Token)
    requires Fits(p, st) && StepToken(lr, st, t).Ok?
    ensures Fitting(p, t)
  {
    var xs := p.contexts;
    assert xs == [] <==> st.cf == [];
    assert xs != [] ==> Top(st).kind == KindOf(Last(xs));
    assert |st.cf| > 1 ==> |xs| > 1 && st.cf[|st.cf| - 2].kind == KindOf(xs[|xs| - 2]) by {
      if |st.cf| > 1 {
        var cf1 := st.cf[..|st.cf| - 1];
        assert ContextsOk(xs[..|xs| - 1], cf1, p.inWord, WordsKnown(p));
        assert cf1[|cf1| - 1] == st.cf[|st.cf| - 2];
      }
    }
    hide ContextsOk, SourceWellFormed, WellFormed;
  }

  /** Reading an accepted token adds exactly that token to the text. */
  lemma {:induction false} TokenText(p: Parse, t: Token, rest: seq<Token>)
    requires Fitting(p, t)
    ensures Unparse(ParseToken(p, t), rest) == Unparse(p, [t] + rest)
  {
    hide Unparse;
    match t
    case Plain(op, param) => AtomText(p, Prim(op, param), t, rest);
    case CallWord(k) => AtomText(p, Call(k), t, rest);
    case Tick(k) => AtomText(p, TickWord(k), t, rest);
    case Recurse => AtomText(p, SelfCall, t, rest);
    case Unloop => AtomText(p, Unlooped, t, rest);
    case Exit => AtomText(p, Leave, t, rest);
    case Colon => BoundaryText(p, t, rest);
    case Semicolon => BoundaryText(p, t, rest);
    case If => OpenerText(p, InIf(p.current), t, rest);
    case DoWord => OpenerText(p, InDo(p.current), t, rest);
    case Begin => OpenerText(p, InBegin(p.current), t, rest);
    case While => OpenerText(p, InWhile(p.current), t, rest);
    case Else => ElseText(p, rest);
    case Repeat => RepeatText(p, rest);
    case Then => CloserText(p, t, rest);
    case LoopWord => CloserText(p, t, rest);
    case Until => CloserText(p, t, rest);
    case Again => CloserText(p, t, rest);
  }

  // ----- the structure keeps fitting -----

  lemma {:induction false} OpenLoopsPush(cf: seq<ControlFlow>, e: ControlFlow)
    ensures OpenLoops(cf + [e]) == OpenLoops(cf) + if e.kind.CfDo? then 1 else 0
  {
    assert (cf + [e])[..|cf|] == cf;
  }

  lemma {:induction false} OpenedFits(p: Parse, st: State, x: Context, s1: State)
    requires Fits(p, st) && ContextOk(x, p.inWord, WordsKnown(p), OpenLoops(st.cf))
    requires s1.defining == st.defining && |s1.words| == |st.words|
    requires s1.cf != [] && s1.cf[..|s1.cf| - 1] == st.cf && s1.cf[|s1.cf| - 1].kind == KindOf(x)
    ensures Fits(Opened(p, x), s1)
  {
    assert (p.contexts + [x])[..|p.contexts|] == p.contexts;
    assert WellFormed(Empty, p.inWord, WordsKnown(p), OpenLoops(s1.cf));
    hide WellFormed, SourceWellFormed, ContextOk, OpenLoops;
  }

  /** A statement that stays under the same contexts. */
  lemma {:induction false} StaysFitting(p: Parse, st: State, s: Stmt, s1: State)
    requires Fits(p, st) && WellFormed(s, p.inWord, WordsKnown(p), OpenLoops(st.cf))
    requires s1.cf == st.cf && s1.defining == st.defining && |s1.words| == |st.words|
    ensures Fits(Then1(p, s), s1)
  {
    assert WellFormed(Chain(p.current, s), p.inWord, WordsKnown(p), OpenLoops(st.cf));
    hide WellFormed, SourceWellFormed, ContextsOk, OpenLoops;
  }

  lemma {:induction false} UnderFits(p: Parse, st: State, s: Stmt, s1: State)
    requires Fits(p, st) && p.contexts != [] && st.cf != []
    requires s1.cf == st.cf[..|st.cf| - 1] && s1.defining == st.defining && |s1.words| == |st.words|
    requires WellFormed(s, p.inWord, WordsKnown(p), OpenLoops(s1.cf))
    ensures Fits(Under(p, s), s1)
  {
    hide WellFormed, SourceWellFormed, OpenLoops, ContextOk;
  }

  /** What the top entry says about the structure read since it was opened. */
  lemma {:induction false} TopFits(p: Parse, st: State)
    requires Fits(p, st) && p.contexts != []
    ensures st.cf != [] && Top(st).kind == KindOf(Last(p.contexts))
    ensures ContextOk(Last(p.contexts), p.inWord, WordsKnown(p), OpenLoops(PopCf(st).cf))
    ensures OpenLoops(st.cf) == OpenLoops(PopCf(st).cf) + if Last(p.contexts).InDo? then 1 else 0
    ensures WellFormed(p.current, p.inWord, WordsKnown(p), OpenLoops(st.cf))
  {
    hide WellFormed, SourceWellFormed, ContextOk;
  }

  /** The statement that a terminator completes. */
  function Closed(x: Context, t: Token, body: Stmt): Stmt {
    match x
    case InIf(b) => Chain(b, IfThen(body))
    case InElse(b, y) => Chain(b, IfElse(y, body))
    case InDo(b) => Chain(b, DoLoop(body))
    case InBegin(b) => Chain(b, if t.Until? then BeginUntil(body) else BeginAgain(body))
    case InWhile(_) => body
  }

  predicate IsCloser(t: Token) {
    t.Then? || t.LoopWord? || t.Until? || t.Again?
  }

  lemma {:induction false} ClosedParse(p: Parse, t: Token)
    requires Fitting(p, t) && IsCloser(t)
    ensures p.contexts != [] && !Last(p.contexts).InWhile?
    ensures ParseToken(p, t) == Under(p, Closed(Last(p.contexts), t, p.current))
  {
  }

  lemma {:induction false} ClosedWellFormed(x: Context, t: Token, body: Stmt, inWord: bool, words: nat, loops: nat)
    requires ContextOk(x, inWord, words, loops) && !x.InWhile?
    requires WellFormed(body, inWord, words, if x.InDo? then loops + 1 else loops)
    ensures WellFormed(Closed(x, t, body), inWord, words, loops)
  {
  }

  lemma {:induction false} CloserStep(lr: Option<Opcode -> bool>, st: State, t: Token)
    requires StepToken(lr, st, t).Ok? && IsCloser(t)
    ensures st.cf != [] && var s1 := StepToken(lr, st, t).value;
      s1.cf == PopCf(st).cf && s1.defining == st.defining && s1.words == st.words
  {
  }

  lemma {:induction false} CloserFits(lr: Option<Opcode -> bool>, p: Parse, st: State, t: Token)
    requires Fits(p, st) && StepToken(lr, st, t).Ok? && Fitting(p, t) && IsCloser(t)
    ensures Fits(ParseToken(p, t), StepToken(lr, st, t).value)
  {
    hide WellFormed, StepToken, ParseToken, Fits, ContextOk, OpenLoops, Fitting, Closed, WordsKnown;
    ClosedParse(p, t);
    CloserStep(lr, st, t);
    TopFits(p, st);
    var s := Closed(Last(p.contexts), t, p.current);
    ClosedWellFormed(Last(p.contexts), t, p.current, p.inWord, WordsKnown(p), OpenLoops(PopCf(st).cf));
    UnderFits(p, st, s, StepToken(lr, st, t).value);
  }

  lemma {:induction false} ElseFits(lr: Option<Opcode -> bool>, p: Parse, st: State)
    requires Fits(p, st) && StepToken(lr, st, Else).Ok? && Fitting(p, Else)
    ensures Fits(ParseToken(p, Else), StepToken(lr, st, Else).value)
  {
    var x, s1 := Last(p.contexts), StepToken(lr, st, Else).value;
    var y := InElse(x.before, p.current);
    var mid := PopCf(st);
    assert OpenLoops(st.cf) == OpenLoops(mid.cf);
    assert ContextOk(x, p.inWord, WordsKnown(p), OpenLoops(mid.cf));
    assert ContextOk(y, p.inWord, WordsKnown(p), OpenLoops(mid.cf));
    assert WellFormed(Empty, p.inWord, WordsKnown(p), OpenLoops(mid.cf));
    assert s1.cf == mid.cf + [ControlFlow(CfElse, |st.frags|)];
    assert s1.cf[..|s1.cf| - 1] == mid.cf;
    assert ParseToken(p, Else) == Opened(Under(p, Empty), y);
    hide WellFormed, ContextsOk, StepToken, ParseToken, Fits, ContextOk, OpenLoops;
    UnderFits(p, st, Empty, mid);
    OpenedFits(Under(p, Empty), mid, y, s1);
  }

  lemma {:induction false} RepeatStep(lr: Option<Opcode -> bool>, st: State)
    requires StepToken(lr, st, Repeat).Ok?
    ensures |st.cf| > 1 && var s1 := StepToken(lr, st, Repeat).value;
      s1.cf == PopCf(PopCf(st)).cf && s1.defining == st.defining && s1.words == st.words
  {
  }

  lemma {:induction false} RepeatParse(p: Parse)
    requires Fitting(p, Repeat)
    ensures p.contexts != [] && Last(p.contexts).InWhile? && Under(p, Empty).contexts != []
        && Last(Under(p, Empty).contexts).InBegin?
    ensures ParseToken(p, Repeat)
         == Under(Under(p, Empty),
             Chain(Last(Under(p, Empty).contexts).before, BeginWhile(Last(p.contexts).cond, p.current)))
  {
  }

  lemma {:induction false} WhileOk(c: Stmt, inWord: bool, words: nat, loops: nat)
    requires ContextOk(InWhile(c), inWord, words, loops)
    ensures WellFormed(c, inWord, words, loops) && WellFormed(Empty, inWord, words, loops)
  {
    hide WellFormed;
    EmptyOk(inWord, words, loops);
  }

  lemma {:induction false} EmptyOk(inWord: bool, words: nat, loops: nat)
    ensures WellFormed(Empty, inWord, words, loops)
  {
  }

  lemma {:induction false} BeginOk(b: Stmt, inWord: bool, words: nat, loops: nat)
    requires ContextOk(InBegin(b), inWord, words, loops)
    ensures WellFormed(b, inWord, words, loops)
  {
    hide WellFormed;
  }

  lemma {:induction false} RepeatFits(lr: Option<Opcode -> bool>, p: Parse, st: State)
    requires Fits(p, st) && StepToken(lr, st, Repeat).Ok? && Fitting(p, Repeat)
    ensures Fits(ParseToken(p, Repeat), StepToken(lr, st, Repeat).value)
  {
    hide WellFormed, StepToken, ParseToken, Fits, ContextOk, OpenLoops, Fitting, Definitions;
    RepeatParse(p);
    RepeatStep(lr, st);
    TopFits(p, st);
    var q, mid := Under(p, Empty), PopCf(st);
    var x, y := Last(q.contexts), Last(p.contexts);
    WhileOk(y.cond, p.inWord, WordsKnown(p), OpenLoops(mid.cf));
    UnderFits(p, st, Empty, mid);
    TopFits(q, mid);
    BeginOk(x.before, p.inWord, WordsKnown(p), OpenLoops(PopCf(mid).cf));
    RepeatWellFormed(x.before, y.cond, p.current, p.inWord, WordsKnown(p), OpenLoops(PopCf(mid).cf));
    UnderFits(q, mid, Chain(x.before, BeginWhile(y.cond, p.current)), StepToken(lr, st, Repeat).value);
  }

  lemma {:induction false} RepeatWellFormed(b: Stmt, c: Stmt, d: Stmt, inWord: bool, words: nat, loops: nat)
    requires WellFormed(b, inWord, words, loops) && WellFormed(c, inWord, words, loops)
        && WellFormed(d, inWord, words, loops)
    ensures WellFormed(Chain(b, BeginWhile(c, d)), inWord, words, loops)
  {
    assert WellFormed(BeginWhile(c, d), inWord, words, loops);
  }

  lemma {:induction false} BoundaryStep(lr: Option<Opcode -> bool>, st: State, t: Token)
    requires StepToken(lr, st, t).Ok? && (t.Colon? || t.Semicolon?)
    ensures var s1 := StepToken(lr, st, t).value;
      && s1.cf == [] && s1.defining == !st.defining && st.defining == t.Semicolon?
      && |s1.words| == |st.words| + if t.Colon? then 1 else 0
    ensures st.cf == []
  {
    hide ScanBack;
  }

  lemma {:induction false} FreshFits(items: seq<Item>, inWord: bool, st: State)
    requires st.cf == [] && st.defining == inWord && SourceWellFormed(items)
    requires |st.words| == |Definitions(items)| + if inWord then 1 else 0
    ensures Fits(Parse(items, [], Empty, inWord), st)
  {
    hide SourceWellFormed, Definitions, OpenLoops;
  }

  lemma {:induction false} ItemComplete(p: Parse, st: State)
    requires Fits(p, st) && st.cf == []
    ensures p.contexts == []
    ensures ItemWellFormed(if p.inWord then Definition(p.current) else Main(p.current), |Definitions(p.items)|)
  {
    assert OpenLoops(st.cf) == 0;
    hide SourceWellFormed, Definitions, WellFormed;
  }

  lemma {:induction false} BoundaryFits(lr: Option<Opcode -> bool>, p: Parse, st: State, t: Token)
    requires Fits(p, st) && StepToken(lr, st, t).Ok? && Fitting(p, t) && (t.Colon? || t.Semicolon?)
    ensures Fits(ParseToken(p, t), StepToken(lr, st, t).value)
  {
    BoundaryStep(lr, st, t);
    ItemComplete(p, st);
    var item := if p.inWord then Definition(p.current) else Main(p.current);
    SourcePush(p.items, item, []);
    assert ParseToken(p, t) == Parse(p.items + [item], [], Empty, !p.inWord);
    assert |st.words| == WordsKnown(p) && SourceWellFormed(p.items) && p.inWord == st.defining;
    hide StepToken, ParseToken, Fits, SourceWellFormed, Definitions, ItemWellFormed;
    FreshFits(p.items + [item], !p.inWord, StepToken(lr, st, t).value);
  }

  /** The statement of a token that stands by itself. */
  function AtomOf(t: Token): Stmt {
    match t
    case Plain(op, param) => Prim(op, param)
    case CallWord(k) => Call(k)
    case Tick(k) => TickWord(k)
    case Recurse => SelfCall
    case Exit => Leave
    case _ => Unlooped
  }

  predicate IsAtom(t: Token) {
    t.Plain? || t.CallWord? || t.Tick? || t.Recurse? || t.Unloop? || t.Exit?
  }

  lemma {:induction false} AtomStep(lr: Option<Opcode -> bool>, st: State, t: Token)
    requires StepToken(lr, st, t).Ok? && IsAtom(t)
    ensures var s1 := StepToken(lr, st, t).value;
      s1.cf == st.cf && s1.defining == st.defining && s1.words == st.words
    ensures WellFormed(AtomOf(t), st.defining, |st.words|, OpenLoops(st.cf))
  {
    hide ScanBack;
  }

  lemma {:induction false} AtomFits(lr: Option<Opcode -> bool>, p: Parse, st: State, t: Token)
    requires Fits(p, st) && StepToken(lr, st, t).Ok? && IsAtom(t)
    ensures Fits(ParseToken(p, t), StepToken(lr, st, t).value)
  {
    hide StepToken, WellFormed, ContextsOk, SourceWellFormed, OpenLoops, Definitions;
    AtomStep(lr, st, t);
    StaysFitting(p, st, AtomOf(t), StepToken(lr, st, t).value);
  }

  /** The context that an opening token starts. */
  function OpenedBy(t: Token, current: Stmt): Context {
    if t.If? then InIf(current)
    else if t.DoWord? then InDo(current)
    else if t.Begin? then InBegin(current)
    else InWhile(current)
  }

  predicate IsOpener(t: Token) {
    t.If? || t.DoWord? || t.Begin? || t.While?
  }

  lemma {:induction false} OpenerStep(lr: Option<Opcode -> bool>, st: State, t: Token, current: Stmt)
      returns (e: ControlFlow)
    requires StepToken(lr, st, t).Ok? && IsOpener(t)
    ensures var s1 := StepToken(lr, st, t).value;
      && s1.defining == st.defining && s1.words == st.words
      && s1.cf == st.cf + [e] && e.kind == KindOf(OpenedBy(t, current))
  {
    var id := if t.DoWord? then |st.frags| + 1 else |st.frags|;
    e := ControlFlow(KindOf(OpenedBy(t, current)), id);
  }

  lemma {:induction false} LastPushed(cf: seq<ControlFlow>, e: ControlFlow)
    ensures var c := cf + [e]; c != [] && c[..|c| - 1] == cf && c[|c| - 1] == e
  {
  }

  lemma {:induction false} OpenerFits(lr: Option<Opcode -> bool>, p: Parse, st: State, t: Token)
    requires Fits(p, st) && StepToken(lr, st, t).Ok? && IsOpener(t)
    ensures Fits(ParseToken(p, t), StepToken(lr, st, t).value)
  {
    hide StepToken, WellFormed, ContextsOk, SourceWellFormed, OpenLoops, Definitions, KindOf;
    var e := OpenerStep(lr, st, t, p.current);
    LastPushed(st.cf, e);
    OpenedFits(p, st, OpenedBy(t, p.current), StepToken(lr, st, t).value);
  }

  /** An accepted token keeps the structure fitting the state. */
  lemma {:induction false} TokenFits(lr: Option<Opcode -> bool>, p: Parse, st: State, t: Token)
    requires Fits(p, st) && StepToken(lr, st, t).Ok?
    ensures Fitting(p, t) && Fits(ParseToken(p, t), StepToken(lr, st, t).value)
  {
    hide Fits, Fitting, StepToken, ParseToken;
    AcceptedIsFitting(lr, p, st, t);
    if IsAtom(t) { AtomFits(lr, p, st, t); }
    else if IsOpener(t) { OpenerFits(lr, p, st, t); }
    else if IsCloser(t) { CloserFits(lr, p, st, t); }
    else if t.Else? { ElseFits(lr, p, st); }
    else if t.Repeat? { RepeatFits(lr, p, st); }
    else { BoundaryFits(lr, p, st, t); }
  }

  /** Reading on from a state that fits p, the rest of the text completes p. */
  lemma {:induction false} ReadOn(lr: Option<Opcode -> bool>, p: Parse, st: State, ts: seq<Token>) returns (q: Parse)
    requires Fits(p, st) && RunTokens(lr, st, ts).Ok?
    ensures Fits(q, RunTokens(lr, st, ts).value)
    ensures Unparse(q, []) == Unparse(p, ts)
    decreases |ts|
  {
    if ts == [] {
      q := p;
    } else {
      TokenFits(lr, p, st, ts[0]);
      TokenText(p, ts[0], ts[1..]);
      assert [ts[0]] + ts[1..] == ts;
      hide Fits, Unparse, StepToken;
      q := ReadOn(lr, ParseToken(p, ts[0]), StepToken(lr, st, ts[0]).value, ts[1..]);
    }
  }

  /** Accepted means well nested: the tokens are the text of a well-formed structured source. */
  lemma {:induction false} AcceptedIsStructured(lr: Option<Opcode -> bool>, ts: seq<Token>) returns (items: seq<Item>)
    requires Compiled(lr, ts).Ok?
    ensures SourceWellFormed(items) && ts == SourceText(items, [])
  {
    var p0 := Parse([], [], Empty, false);
    var st0 := InitialState();
    FreshFits([], false, st0);
    assert Unparse(p0, ts) == ts;
    var p := ReadOn(lr, p0, st0, ts);
    items := p.items + [Main(p.current)];
    SourcePush(p.items, Main(p.current), []);
    ItemComplete(p, RunTokens(lr, st0, ts).value);
  }
}
