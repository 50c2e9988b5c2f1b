/** The linked program runs as its source means, from ENTRY to HALT, and it stops if and only if
    the meaning is reached with some fuel. */
module SourceMeaning {
  import opened Fragments
  import opened Grammar
  import opened Program
  import opened Semantics
  import opened FragmentMachine
  import opened Simulation
  import opened Linking

  /** The dictionary that a machine's code and a source make together. */
  function DictionaryOf(m: Machine, items: seq<Item>): Dictionary {
    Dictionary(m.env, Definitions(items), Tokens(m))
  }

  function Start(w: World): Config {
    Running(0, Local([], [], w), [])
  }

  function SourceOutcome(m: Machine, items: seq<Item>, fuel: nat, w: World): Outcome {
    EvalSource(DictionaryOf(m, items), items, fuel, Local([], [], w))
  }

  /** How the machine stops when the source has this outcome. */
  function Final(o: Outcome): Config
    requires !o.Endless?
  {
    match o
    case Ended(l) => Halted(l)
    case Exited(l) => Failure(STACK_UNDERFLOW, l.w)
    case Failed(code, w) => Failure(code, w)
    case Lost => Stray
  }

  /** The source has come to an outcome, and it stops the machine like this. */
  predicate Means(o: Outcome, c: Config) {
    !o.Endless? && Final(o) == c
  }

  lemma {:induction false} WellFormedIsPlain(s: Stmt, inWord: bool, words: nat, loops: nat)
    requires WellFormed(s, inWord, words, loops)
    ensures PlainOnly(s)
  {
    match s
    case Chain(a, b) =>
      WellFormedIsPlain(a, inWord, words, loops);
      WellFormedIsPlain(b, inWord, words, loops);
    case IfThen(b) => WellFormedIsPlain(b, inWord, words, loops);
    case IfElse(a, b) =>
      WellFormedIsPlain(a, inWord, words, loops);
      WellFormedIsPlain(b, inWord, words, loops);
    case BeginUntil(b) => WellFormedIsPlain(b, inWord, words, loops);
    case BeginAgain(b) => WellFormedIsPlain(b, inWord, words, loops);
    case BeginWhile(c, b) =>
      WellFormedIsPlain(c, inWord, words, loops);
      WellFormedIsPlain(b, inWord, words, loops);
    case DoLoop(b) => WellFormedIsPlain(b, inWord, words, loops + 1);
    case Empty =>
    case Prim(_, _) =>
    case Call(_) =>
    case TickWord(_) =>
    case SelfCall =>
    case Leave =>
    case Unlooped =>
  }

  ghost predicate PlainSource(items: seq<Item>) {
    && (forall i :: 0 <= i < |items| ==> PlainOnly(items[i].body))
    && (forall k :: 0 <= k < |Definitions(items)| ==> PlainOnly(Definitions(items)[k]))
  }

  lemma {:induction false} SourceIsPlain(items: seq<Item>)
    requires SourceWellFormed(items)
    ensures PlainSource(items)
  {
    hide PlainOnly, WellFormed;
    if items != [] {
      var low, last := items[..|items| - 1], items[|items| - 1];
      SourceIsPlain(low);
      WellFormedIsPlain(last.body, last.Definition?, |Definitions(low)| + if last.Definition? then 1 else 0, 0);
      forall i | 0 <= i < |items| ensures PlainOnly(items[i].body) {
        if i < |low| { assert items[i] == low[i]; }
      }
    }
  }

  lemma {:induction false} ProgramLoaded(m: Machine, items: seq<Item>)
    requires ProgramPlaced(m.code, items) && PlainSource(items)
    ensures Loaded(m, DictionaryOf(m, items))
  {
    hide WordPlaced, PlainOnly, MainPlaced, At;
  }

  /** The top-level items up to some point, from the place after ENTRY. */
  lemma {:induction false} RunsItems(m: Machine, d: Dictionary, items: seq<Item>, fuel: nat, l: Local) returns (n: nat)
    requires Loaded(m, d) && MainPlaced(m.code, items)
    requires forall i :: 0 <= i < |items| ==> PlainOnly(items[i].body)
    ensures Shows(m, Running(1, l, []), n, EvalSource(d, items, fuel, l), fuel, [], MainExtent(items))
    decreases |items|
  {
    hide Loaded, Placed, Size, Shows, PlainOnly, Eval, At, Run;
    if items == [] {
      n := 0;
      ShowsEnd(m, 1, l, fuel, []);
    } else {
      var low, last := items[..|items| - 1], items[|items| - 1];
      forall i | 0 <= i < |low| ensures PlainOnly(low[i].body) {
        assert low[i] == items[i];
      }
      n := RunsItems(m, d, low, fuel, l);
      var o := EvalSource(d, low, fuel, l);
      var k := MainExtent(low);
      match last
      case Definition(_) =>
      case Main(s) =>
        var n2 := 0;
        assert Depth([]) == 0;
        var cur := |Definitions(low)| - 1;
        if o.Ended? {
          assert PlainOnly(items[|items| - 1].body);
          n2 := Simulates(m, d, cur, s, Extent(low), k, fuel, o.l, []);
        }
        n := AndThen(m, Running(1, l, []), n, o, fuel, k, n2,
            if o.Ended? then Eval(d, cur, s, fuel, 0, o.l) else Lost, fuel, fuel, [], k + Size(s));
    }
  }

  lemma {:induction false} EntryStep(m: Machine, items: seq<Item>, l: Local)
    requires MainPlaced(m.code, items)
    ensures Run(m, 1, Running(0, l, [])) == Running(1, l, [])
    decreases |items|
  {
    hide Placed, Run;
    if items == [] {
      StepAt(m, 0, 0, Entry, 0, l, []);
    } else {
      EntryStep(m, items[..|items| - 1], l);
    }
  }

  lemma {:induction false} HaltStep(m: Machine, k: nat, id: nat, l: Local)
    requires At(m.code, k, id, Halt, -1)
    ensures Run(m, 1, Running(k, l, [])) == Halted(l)
  {
    hide Run;
    StepAt(m, k, id, Halt, -1, l, []);
  }

  lemma {:induction false} StrayExit(m: Machine, c: Config, l: Local)
    requires AtExit(m, c, l, [])
    ensures Run(m, 1, c) == Failure(STACK_UNDERFLOW, l.w)
  {
    hide Run;
    OneStep(m, c);
  }

  /** With enough fuel the machine stops as the source means; while the meaning has not been
      reached, it has run for at least as many steps as there was fuel. */
  lemma {:induction false} RunsSource(m: Machine, items: seq<Item>, fuel: nat, w: World) returns (n: nat)
    requires ProgramPlaced(m.code, items) && PlainSource(items)
    ensures var o := SourceOutcome(m, items, fuel, w);
      if o.Endless? then n >= fuel && Run(m, n, Start(w)).Running? else Run(m, n, Start(w)) == Final(o)
  {
    hide WordPlaced, PlainOnly, MainPlaced, At, Loaded, EvalSource, NoRepeats, Run, AtExit, Extent;
    var d, l := DictionaryOf(m, items), Local([], [], w);
    ProgramLoaded(m, items);
    var k := MainExtent(items);
    var n1 := RunsItems(m, d, items, fuel, l);
    EntryStep(m, items, l);
    var o := SourceOutcome(m, items, fuel, w);
    Prepend(m, Start(w), 1, Running(1, l, []), n1, o, fuel, fuel, [], k);
    n := 1 + n1;
    if o.Ended? {
      HaltStep(m, k, Extent(items), o.l);
      RunAdd(m, n, 1, Start(w));
      n := n + 1;
    } else if o.Exited? {
      StrayExit(m, Run(m, n, Start(w)), o.l);
      RunAdd(m, n, 1, Start(w));
      n := n + 1;
    }
  }

  lemma {:induction false} StoppedStays(m: Machine, a: nat, b: nat, c: Config)
    requires a <= b && !Run(m, a, c).Running?
    ensures Run(m, b, c) == Run(m, a, c)
  {
    hide Run;
    RunAdd(m, a, b - a, c);
    RunStops(m, b - a, Run(m, a, c));
  }

  /** The machine stops in some way if and only if the source means that outcome: nothing ends
      that should go on, and nothing goes on that should end. */
  lemma {:induction false} StopsExactlyAsMeant(m: Machine, items: seq<Item>, w: World, c: Config)
    requires ProgramPlaced(m.code, items) && PlainSource(items) && !c.Running?
    ensures (exists n: nat :: Run(m, n, Start(w)) == c)
       <==> (exists fuel: nat :: Means(SourceOutcome(m, items, fuel, w), c))
  {
    hide ProgramPlaced, PlainSource, Run, SourceOutcome, Final, Start;
    if n: nat :| Run(m, n, Start(w)) == c {
      var k := RunsSource(m, items, n + 1, w);
      if SourceOutcome(m, items, n + 1, w).Endless? {
        StoppedStays(m, n, k, Start(w));
      } else {
        FinalStops(SourceOutcome(m, items, n + 1, w));
        if n <= k { StoppedStays(m, n, k, Start(w)); } else { StoppedStays(m, k, n, Start(w)); }
      }
    }
    if fuel: nat :| Means(SourceOutcome(m, items, fuel, w), c) {
      var n := RunsSource(m, items, fuel, w);
    }
  }

  lemma {:induction false} FinalStops(o: Outcome)
    requires !o.Endless?
    ensures !Final(o).Running?
  {
  }
}
