/** The nesting grammar of control-flow words, as structured programs, and the places where the
    compiler puts their fragments. */
module Grammar {
  import opened Fragments
  import opened FrontEnd

  datatype Stmt =
    | Empty
    | Prim(op: Opcode, param: int)
    | Call(word: nat)
    | TickWord(word: nat)
    | SelfCall
    | Leave
    | Unlooped
    | Chain(first: Stmt, second: Stmt)
    | IfThen(body: Stmt)
    | IfElse(yes: Stmt, no: Stmt)
    | BeginUntil(body: Stmt)
    | BeginAgain(body: Stmt)
    | BeginWhile(cond: Stmt, body: Stmt)
    | DoLoop(body: Stmt)

  /** The words of a structured program in source order, followed by `rest`. */
  function Text(s: Stmt, rest: seq<Token>): seq<Token> {
    match s
    case Empty => rest
    case Prim(op, param) => [Plain(op, param)] + rest
    case Call(k) => [CallWord(k)] + rest
    case TickWord(k) => [Tick(k)] + rest
    case SelfCall => [Recurse] + rest
    case Leave => [Exit] + rest
    case Unlooped => [Unloop] + rest
    case Chain(a, b) => Text(a, Text(b, rest))
    case IfThen(b) => [If] + Text(b, [Then] + rest)
    case IfElse(a, b) => [If] + Text(a, [Else] + Text(b, [Then] + rest))
    case BeginUntil(b) => [Begin] + Text(b, [Until] + rest)
    case BeginAgain(b) => [Begin] + Text(b, [Again] + rest)
    case BeginWhile(c, b) => [Begin] + Text(c, [While] + Text(b, [Repeat] + rest))
    case DoLoop(b) => [DoWord] + Text(b, [LoopWord] + rest)
  }

  /** The side conditions that do not concern nesting: known words, declarations outside words,
      `exit` and `recurse` inside them, `i` and `j` inside enough loops. */
  predicate WellFormed(s: Stmt, inWord: bool, words: nat, loops: nat) {
    match s
    case Empty => true
    case Prim(op, param) => IsPlain(op) && (IsDeclaration(op) ==> !inWord) && LoopsNeeded(op, param) <= loops
    case Call(k) => k < words
    case TickWord(k) => k < words
    case SelfCall => inWord
    case Leave => inWord
    case Unlooped => true
    case Chain(a, b) => WellFormed(a, inWord, words, loops) && WellFormed(b, inWord, words, loops)
    case IfThen(b) => WellFormed(b, inWord, words, loops)
    case IfElse(a, b) => WellFormed(a, inWord, words, loops) && WellFormed(b, inWord, words, loops)
    case BeginUntil(b) => WellFormed(b, inWord, words, loops)
    case BeginAgain(b) => WellFormed(b, inWord, words, loops)
    case BeginWhile(c, b) => WellFormed(c, inWord, words, loops) && WellFormed(b, inWord, words, loops)
    case DoLoop(b) => WellFormed(b, inWord, words, loops + 1)
  }

  /** A source is top-level code with definitions in between. */
  datatype Item = Main(body: Stmt) | Definition(body: Stmt)

  function ItemText(item: Item, rest: seq<Token>): seq<Token> {
    match item
    case Main(s) => Text(s, rest)
    case Definition(s) => [Colon] + Text(s, [Semicolon] + rest)
  }

  function SourceText(items: seq<Item>, rest: seq<Token>): seq<Token> {
    if items == [] then rest
    else SourceText(items[..|items| - 1], ItemText(items[|items| - 1], rest))
  }

  function Definitions(items: seq<Item>): seq<Stmt> {
    if items == [] then []
    else
      var last := items[|items| - 1];
      Definitions(items[..|items| - 1]) + if last.Definition? then [last.body] else []
  }

  predicate ItemWellFormed(item: Item, words: nat) {
    match item
    case Main(s) => WellFormed(s, false, words, 0)
    case Definition(s) => WellFormed(s, true, words + 1, 0)
  }

  predicate SourceWellFormed(items: seq<Item>) {
    items != [] ==>
      && SourceWellFormed(items[..|items| - 1])
      && ItemWellFormed(items[|items| - 1], |Definitions(items[..|items| - 1])|)
  }

  // ----- where the fragments go -----

  /** Fragments, the order they stand in, and the dictionary of word locations. */
  datatype Code = Code(frags: seq<Fragment>, order: seq<nat>, words: seq<nat>)

  function CodeOf(st: State): Code {
    Code(st.frags, st.sequence, st.words)
  }

  function Size(s: Stmt): nat {
    match s
    case Empty => 0
    case Prim(_, _) => 1
    case Call(_) => 1
    case TickWord(_) => 1
    case SelfCall => 1
    case Leave => 1
    case Unlooped => 0
    case Chain(a, b) => Size(a) + Size(b)
    case IfThen(b) => Size(b) + 2
    case IfElse(a, b) => Size(a) + Size(b) + 4
    case BeginUntil(b) => Size(b) + 2
    case BeginAgain(b) => Size(b) + 2
    case BeginWhile(c, b) => Size(c) + Size(b) + 4
    case DoLoop(b) => Size(b) + 3
  }

  ghost predicate At(c: Code, k: nat, id: nat, op: Opcode, param: int) {
    && k < |c.order| && c.order[k] == id
    && id < |c.frags| && c.frags[id].op == op && c.frags[id].param == param
  }

  /** The fragments of s, numbered from n, stand at places lo .. lo + Size(s), and every branch
      names the location that structured control flow calls for.  `cur` is the word that the
      code belongs to. */
  ghost predicate Placed(c: Code, cur: int, s: Stmt, n: nat, lo: nat)
    decreases s, 1
  {
    match s
    case Empty => true
    case Unlooped => true
    case Prim(op, param) => At(c, lo, n, op, param)
    case Call(k) => k < |c.words| && At(c, lo, n, DefinedWord, c.words[k])
    case TickWord(k) => k < |c.words| && At(c, lo, n, PushOffsetAddress, c.words[k])
    case SelfCall => 0 <= cur < |c.words| && At(c, lo, n, DefinedWord, c.words[cur])
    case Leave => 0 <= cur < |c.words| && At(c, lo, n, ExitWord, c.words[cur])
    case Chain(a, b) => PlacedChain(c, cur, a, b, n, lo)
    case IfThen(b) => PlacedIfThen(c, cur, b, n, lo)
    case IfElse(a, b) => PlacedIfElse(c, cur, a, b, n, lo)
    case BeginUntil(b) => PlacedBeginUntil(c, cur, b, n, lo)
    case BeginAgain(b) => PlacedBeginAgain(c, cur, b, n, lo)
    case BeginWhile(d, b) => PlacedBeginWhile(c, cur, d, b, n, lo)
    case DoLoop(b) => PlacedDoLoop(c, cur, b, n, lo)
  }

  ghost predicate PlacedChain(c: Code, cur: int, a: Stmt, b: Stmt, n: nat, lo: nat)
    decreases Chain(a, b), 0
  {
    Placed(c, cur, a, n, lo) && Placed(c, cur, b, n + Size(a), lo + Size(a))
  }

  ghost predicate PlacedIfThen(c: Code, cur: int, b: Stmt, n: nat, lo: nat)
    decreases IfThen(b), 0
  {
    && At(c, lo, n + 1, BranchIfZero, n)
    && Placed(c, cur, b, n + 2, lo + 1)
    && At(c, lo + 1 + Size(b), n, BranchLocation, -1)
  }

  ghost predicate PlacedIfElse(c: Code, cur: int, a: Stmt, b: Stmt, n: nat, lo: nat)
    decreases IfElse(a, b), 0
  {
    var m := n + 2 + Size(a);
    && At(c, lo, n + 1, BranchIfZero, n)
    && Placed(c, cur, a, n + 2, lo + 1)
    && At(c, lo + 1 + Size(a), m + 1, Branch, m)
    && At(c, lo + 2 + Size(a), n, BranchLocation, -1)
    && Placed(c, cur, b, m + 2, lo + 3 + Size(a))
    && At(c, lo + 3 + Size(a) + Size(b), m, BranchLocation, -1)
  }

  ghost predicate PlacedBeginUntil(c: Code, cur: int, b: Stmt, n: nat, lo: nat)
    decreases BeginUntil(b), 0
  {
    && At(c, lo, n, BranchLocation, -1)
    && Placed(c, cur, b, n + 1, lo + 1)
    && At(c, lo + 1 + Size(b), n + 1 + Size(b), BranchIfZero, n)
  }

  ghost predicate PlacedBeginAgain(c: Code, cur: int, b: Stmt, n: nat, lo: nat)
    decreases BeginAgain(b), 0
  {
    && At(c, lo, n, BranchLocation, -1)
    && Placed(c, cur, b, n + 1, lo + 1)
    && At(c, lo + 1 + Size(b), n + 1 + Size(b), Branch, n)
  }

  ghost predicate PlacedBeginWhile(c: Code, cur: int, d: Stmt, b: Stmt, n: nat, lo: nat)
    decreases BeginWhile(d, b), 0
  {
    var m := n + 1 + Size(d);
    && At(c, lo, n, BranchLocation, -1)
    && Placed(c, cur, d, n + 1, lo + 1)
    && At(c, lo + 1 + Size(d), m + 1, BranchIfZero, m)
    && Placed(c, cur, b, m + 2, lo + 2 + Size(d))
    && At(c, lo + 2 + Size(d) + Size(b), m + 2 + Size(b), Branch, n)
    && At(c, lo + 3 + Size(d) + Size(b), m, BranchLocation, -1)
  }

  ghost predicate PlacedDoLoop(c: Code, cur: int, b: Stmt, n: nat, lo: nat)
    decreases DoLoop(b), 0
  {
    && At(c, lo, n, Do, -1)
    && At(c, lo + 1, n + 1, BranchLocation, -1)
    && Placed(c, cur, b, n + 2, lo + 2)
    && At(c, lo + 2 + Size(b), n + 2 + Size(b), Loop, n + 1)
  }

  // One unfolding of size and placement for each construct.

  lemma {:induction false} AsChain(c: Code, cur: int, a: Stmt, b: Stmt, n: nat, lo: nat)
    ensures Size(Chain(a, b)) == Size(a) + Size(b)
    ensures Placed(c, cur, Chain(a, b), n, lo) == PlacedChain(c, cur, a, b, n, lo)
  {
    hide PlacedChain;
  }

  lemma {:induction false} AsIfThen(c: Code, cur: int, b: Stmt, n: nat, lo: nat)
    ensures Size(IfThen(b)) == Size(b) + 2
    ensures Placed(c, cur, IfThen(b), n, lo) == PlacedIfThen(c, cur, b, n, lo)
  {
    hide PlacedIfThen;
  }

  lemma {:induction false} AsIfElse(c: Code, cur: int, a: Stmt, b: Stmt, n: nat, lo: nat)
    ensures Size(IfElse(a, b)) == Size(a) + Size(b) + 4
    ensures Placed(c, cur, IfElse(a, b), n, lo) == PlacedIfElse(c, cur, a, b, n, lo)
  {
    hide PlacedIfElse;
  }

  lemma {:induction false} AsBeginUntil(c: Code, cur: int, b: Stmt, n: nat, lo: nat)
    ensures Size(BeginUntil(b)) == Size(b) + 2
    ensures Placed(c, cur, BeginUntil(b), n, lo) == PlacedBeginUntil(c, cur, b, n, lo)
  {
    hide PlacedBeginUntil;
  }

  lemma {:induction false} AsBeginAgain(c: Code, cur: int, b: Stmt, n: nat, lo: nat)
    ensures Size(BeginAgain(b)) == Size(b) + 2
    ensures Placed(c, cur, BeginAgain(b), n, lo) == PlacedBeginAgain(c, cur, b, n, lo)
  {
    hide PlacedBeginAgain;
  }

  lemma {:induction false} AsBeginWhile(c: Code, cur: int, d: Stmt, b: Stmt, n: nat, lo: nat)
    ensures Size(BeginWhile(d, b)) == Size(d) + Size(b) + 4
    ensures Placed(c, cur, BeginWhile(d, b), n, lo) == PlacedBeginWhile(c, cur, d, b, n, lo)
  {
    hide PlacedBeginWhile;
  }

  lemma {:induction false} AsDoLoop(c: Code, cur: int, b: Stmt, n: nat, lo: nat)
    ensures Size(DoLoop(b)) == Size(b) + 3
    ensures Placed(c, cur, DoLoop(b), n, lo) == PlacedDoLoop(c, cur, b, n, lo)
  {
    hide PlacedDoLoop;
  }

  /** The same fragments stand in the same order from lo1 in c1 as from lo in c. */
  ghost predicate Moved(c: Code, c1: Code, n: nat, lo: nat, lo1: nat, size: nat) {
    && lo + size <= |c.order| && lo1 + size <= |c1.order| && c.words <= c1.words
    && (forall j :: lo1 <= j < lo1 + size ==> c1.order[j] == c.order[j - lo1 + lo])
    && n + size <= |c.frags| && n + size <= |c1.frags|
    && (forall i :: n <= i < n + size ==> c1.frags[i].op == c.frags[i].op && c1.frags[i].param == c.frags[i].param)
  }

  lemma {:induction false} MovedPart(c: Code, c1: Code, n: nat, lo: nat, lo1: nat, size: nat, dn: nat, dlo: nat,
      part: nat)
    requires Moved(c, c1, n, lo, lo1, size) && dn + part <= size && dlo + part <= size
    ensures Moved(c, c1, n + dn, lo + dlo, lo1 + dlo, part)
  {
  }

  lemma {:induction false} IfThenParts(c: Code, c1: Code, cur: int, b: Stmt, n: nat, lo: nat, lo1: nat)
    requires PlacedIfThen(c, cur, b, n, lo) && Moved(c, c1, n, lo, lo1, Size(IfThen(b)))
    ensures Placed(c, cur, b, n + 2, lo + 1) && Moved(c, c1, n + 2, lo + 1, lo1 + 1, Size(b))
  {
    hide Placed, Size;
    AsIfThen(c, cur, b, n, lo);
  }

  lemma {:induction false} IfThenMoves(c: Code, c1: Code, cur: int, b: Stmt, n: nat, lo: nat, lo1: nat)
    requires PlacedIfThen(c, cur, b, n, lo) && Moved(c, c1, n, lo, lo1, Size(IfThen(b)))
    requires Placed(c1, cur, b, n + 2, lo1 + 1)
    ensures PlacedIfThen(c1, cur, b, n, lo1)
  {
    hide Placed, Size;
    AsIfThen(c, cur, b, n, lo);
  }

  lemma {:induction false} IfElseParts(c: Code, c1: Code, cur: int, a: Stmt, b: Stmt, n: nat, lo: nat, lo1: nat)
    requires PlacedIfElse(c, cur, a, b, n, lo) && Moved(c, c1, n, lo, lo1, Size(IfElse(a, b)))
    ensures Placed(c, cur, a, n + 2, lo + 1) && Moved(c, c1, n + 2, lo + 1, lo1 + 1, Size(a))
    ensures Placed(c, cur, b, n + 4 + Size(a), lo + 3 + Size(a))
        && Moved(c, c1, n + 4 + Size(a), lo + 3 + Size(a), lo1 + 3 + Size(a), Size(b))
  {
    hide Placed, Moved, At, Size;
    AsIfElse(c, cur, a, b, n, lo);
    var size := Size(IfElse(a, b));
    MovedPart(c, c1, n, lo, lo1, size, 2, 1, Size(a));
    MovedPart(c, c1, n, lo, lo1, size, 4 + Size(a), 3 + Size(a), Size(b));
  }

  lemma {:induction false} IfElseMoves(c: Code, c1: Code, cur: int, a: Stmt, b: Stmt, n: nat, lo: nat, lo1: nat)
    requires PlacedIfElse(c, cur, a, b, n, lo) && Moved(c, c1, n, lo, lo1, Size(IfElse(a, b)))
    requires Placed(c1, cur, a, n + 2, lo1 + 1)
    requires Placed(c1, cur, b, n + 4 + Size(a), lo1 + 3 + Size(a))
    ensures PlacedIfElse(c1, cur, a, b, n, lo1)
  {
    hide Placed, Size;
    AsIfElse(c, cur, a, b, n, lo);
  }

  lemma {:induction false} BeginUntilParts(c: Code, c1: Code, cur: int, b: Stmt, n: nat, lo: nat, lo1: nat)
    requires PlacedBeginUntil(c, cur, b, n, lo) && Moved(c, c1, n, lo, lo1, Size(BeginUntil(b)))
    ensures Placed(c, cur, b, n + 1, lo + 1) && Moved(c, c1, n + 1, lo + 1, lo1 + 1, Size(b))
  {
    hide Placed, Size;
    AsBeginUntil(c, cur, b, n, lo);
  }

  lemma {:induction false} BeginUntilMoves(c: Code, c1: Code, cur: int, b: Stmt, n: nat, lo: nat, lo1: nat)
    requires PlacedBeginUntil(c, cur, b, n, lo) && Moved(c, c1, n, lo, lo1, Size(BeginUntil(b)))
    requires Placed(c1, cur, b, n + 1, lo1 + 1)
    ensures PlacedBeginUntil(c1, cur, b, n, lo1)
  {
    hide Placed, Size;
    AsBeginUntil(c, cur, b, n, lo);
  }

  lemma {:induction false} BeginAgainParts(c: Code, c1: Code, cur: int, b: Stmt, n: nat, lo: nat, lo1: nat)
    requires PlacedBeginAgain(c, cur, b, n, lo) && Moved(c, c1, n, lo, lo1, Size(BeginAgain(b)))
    ensures Placed(c, cur, b, n + 1, lo + 1) && Moved(c, c1, n + 1, lo + 1, lo1 + 1, Size(b))
  {
    hide Placed, Size;
    AsBeginAgain(c, cur, b, n, lo);
  }

  lemma {:induction false} BeginAgainMoves(c: Code, c1: Code, cur: int, b: Stmt, n: nat, lo: nat, lo1: nat)
    requires PlacedBeginAgain(c, cur, b, n, lo) && Moved(c, c1, n, lo, lo1, Size(BeginAgain(b)))
    requires Placed(c1, cur, b, n + 1, lo1 + 1)
    ensures PlacedBeginAgain(c1, cur, b, n, lo1)
  {
    hide Placed, Size;
    AsBeginAgain(c, cur, b, n, lo);
  }

  lemma {:induction false} BeginWhileParts(c: Code, c1: Code, cur: int, d: Stmt, b: Stmt, n: nat, lo: nat, lo1: nat)
    requires PlacedBeginWhile(c, cur, d, b, n, lo) && Moved(c, c1, n, lo, lo1, Size(BeginWhile(d, b)))
    ensures Placed(c, cur, d, n + 1, lo + 1) && Moved(c, c1, n + 1, lo + 1, lo1 + 1, Size(d))
    ensures Placed(c, cur, b, n + 3 + Size(d), lo + 2 + Size(d))
        && Moved(c, c1, n + 3 + Size(d), lo + 2 + Size(d), lo1 + 2 + Size(d), Size(b))
  {
    hide Placed, Moved, At, Size;
    AsBeginWhile(c, cur, d, b, n, lo);
    var size := Size(BeginWhile(d, b));
    MovedPart(c, c1, n, lo, lo1, size, 1, 1, Size(d));
    MovedPart(c, c1, n, lo, lo1, size, 3 + Size(d), 2 + Size(d), Size(b));
  }

  lemma {:induction false} BeginWhileMoves(c: Code, c1: Code, cur: int, d: Stmt, b: Stmt, n: nat, lo: nat, lo1: nat)
    requires PlacedBeginWhile(c, cur, d, b, n, lo) && Moved(c, c1, n, lo, lo1, Size(BeginWhile(d, b)))
    requires Placed(c1, cur, d, n + 1, lo1 + 1)
    requires Placed(c1, cur, b, n + 3 + Size(d), lo1 + 2 + Size(d))
    ensures PlacedBeginWhile(c1, cur, d, b, n, lo1)
  {
    hide Placed, Size;
    AsBeginWhile(c, cur, d, b, n, lo);
  }

  lemma {:induction false} DoLoopParts(c: Code, c1: Code, cur: int, b: Stmt, n: nat, lo: nat, lo1: nat)
    requires PlacedDoLoop(c, cur, b, n, lo) && Moved(c, c1, n, lo, lo1, Size(DoLoop(b)))
    ensures Placed(c, cur, b, n + 2, lo + 2) && Moved(c, c1, n + 2, lo + 2, lo1 + 2, Size(b))
  {
    hide Placed, Size;
    AsDoLoop(c, cur, b, n, lo);
  }

  lemma {:induction false} DoLoopMoves(c: Code, c1: Code, cur: int, b: Stmt, n: nat, lo: nat, lo1: nat)
    requires PlacedDoLoop(c, cur, b, n, lo) && Moved(c, c1, n, lo, lo1, Size(DoLoop(b)))
    requires Placed(c1, cur, b, n + 2, lo1 + 2)
    ensures PlacedDoLoop(c1, cur, b, n, lo1)
  {
    hide Placed, Size;
    AsDoLoop(c, cur, b, n, lo);
  }

  lemma {:induction false} AtomMoves(c: Code, c1: Code, cur: int, s: Stmt, n: nat, lo: nat, lo1: nat)
    requires s.Empty? || s.Unlooped? || s.Prim? || s.Call? || s.TickWord? || s.SelfCall? || s.Leave?
    requires Placed(c, cur, s, n, lo) && Moved(c, c1, n, lo, lo1, Size(s))
    ensures Placed(c1, cur, s, n, lo1)
  {
  }

  /** Placement depends on the block of fragments only, not on where the block stands. */
  lemma {:induction false} PlacedMoves(c: Code, c1: Code, cur: int, s: Stmt, n: nat, lo: nat, lo1: nat)
    requires Placed(c, cur, s, n, lo) && Moved(c, c1, n, lo, lo1, Size(s))
    ensures Placed(c1, cur, s, n, lo1)
  {
    hide Moved, At, Placed, Size, PlacedIfThen, PlacedIfElse, PlacedBeginUntil, PlacedBeginAgain, PlacedBeginWhile,
        PlacedDoLoop;
    match s
    case Chain(a, b) =>
      AsChain(c, cur, a, b, n, lo);
      AsChain(c1, cur, a, b, n, lo1);
      MovedPart(c, c1, n, lo, lo1, Size(s), 0, 0, Size(a));
      PlacedMoves(c, c1, cur, a, n, lo, lo1);
      MovedPart(c, c1, n, lo, lo1, Size(s), Size(a), Size(a), Size(b));
      PlacedMoves(c, c1, cur, b, n + Size(a), lo + Size(a), lo1 + Size(a));
    case IfThen(b) =>
      AsIfThen(c, cur, b, n, lo);
      AsIfThen(c1, cur, b, n, lo1);
      IfThenParts(c, c1, cur, b, n, lo, lo1);
      PlacedMoves(c, c1, cur, b, n + 2, lo + 1, lo1 + 1);
      IfThenMoves(c, c1, cur, b, n, lo, lo1);
    case IfElse(a, b) =>
      AsIfElse(c, cur, a, b, n, lo);
      AsIfElse(c1, cur, a, b, n, lo1);
      IfElseParts(c, c1, cur, a, b, n, lo, lo1);
      PlacedMoves(c, c1, cur, a, n + 2, lo + 1, lo1 + 1);
      PlacedMoves(c, c1, cur, b, n + 4 + Size(a), lo + 3 + Size(a), lo1 + 3 + Size(a));
      IfElseMoves(c, c1, cur, a, b, n, lo, lo1);
    case BeginUntil(b) =>
      AsBeginUntil(c, cur, b, n, lo);
      AsBeginUntil(c1, cur, b, n, lo1);
      BeginUntilParts(c, c1, cur, b, n, lo, lo1);
      PlacedMoves(c, c1, cur, b, n + 1, lo + 1, lo1 + 1);
      BeginUntilMoves(c, c1, cur, b, n, lo, lo1);
    case BeginAgain(b) =>
      AsBeginAgain(c, cur, b, n, lo);
      AsBeginAgain(c1, cur, b, n, lo1);
      BeginAgainParts(c, c1, cur, b, n, lo, lo1);
      PlacedMoves(c, c1, cur, b, n + 1, lo + 1, lo1 + 1);
      BeginAgainMoves(c, c1, cur, b, n, lo, lo1);
    case BeginWhile(d, b) =>
      AsBeginWhile(c, cur, d, b, n, lo);
      AsBeginWhile(c1, cur, d, b, n, lo1);
      BeginWhileParts(c, c1, cur, d, b, n, lo, lo1);
      PlacedMoves(c, c1, cur, d, n + 1, lo + 1, lo1 + 1);
      PlacedMoves(c, c1, cur, b, n + 3 + Size(d), lo + 2 + Size(d), lo1 + 2 + Size(d));
      BeginWhileMoves(c, c1, cur, d, b, n, lo, lo1);
    case DoLoop(b) =>
      AsDoLoop(c, cur, b, n, lo);
      AsDoLoop(c1, cur, b, n, lo1);
      DoLoopParts(c, c1, cur, b, n, lo, lo1);
      PlacedMoves(c, c1, cur, b, n + 2, lo + 2, lo1 + 2);
      DoLoopMoves(c, c1, cur, b, n, lo, lo1);
    case Empty => AtomMoves(c, c1, cur, s, n, lo, lo1);
    case Unlooped => AtomMoves(c, c1, cur, s, n, lo, lo1);
    case Prim(_, _) => AtomMoves(c, c1, cur, s, n, lo, lo1);
    case Call(_) => AtomMoves(c, c1, cur, s, n, lo, lo1);
    case TickWord(_) => AtomMoves(c, c1, cur, s, n, lo, lo1);
    case SelfCall => AtomMoves(c, c1, cur, s, n, lo, lo1);
    case Leave => AtomMoves(c, c1, cur, s, n, lo, lo1);
  }
}
