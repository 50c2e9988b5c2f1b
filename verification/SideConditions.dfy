/** The side conditions of a well-formed source, word by word: what a single word may be, with the
    number of do-loops that it stands in. */
module SideConditions {
  import opened Fragments
  import opened Grammar

  /** A word of the source and the number of do-loops around it. */
  datatype Occurrence = Occurrence(word: Stmt, loops: nat)

  function Occurrences(s: Stmt, loops: nat): seq<Occurrence> {
    match s
    case Chain(a, b) => Occurrences(a, loops) + Occurrences(b, loops)
    case IfThen(b) => Occurrences(b, loops)
    case IfElse(a, b) => Occurrences(a, loops) + Occurrences(b, loops)
    case BeginUntil(b) => Occurrences(b, loops)
    case BeginAgain(b) => Occurrences(b, loops)
    case BeginWhile(c, b) => Occurrences(c, loops) + Occurrences(b, loops)
    case DoLoop(b) => Occurrences(b, loops + 1)
    case Empty => []
    case Unlooped => []
    case Prim(_, _) => [Occurrence(s, loops)]
    case Call(_) => [Occurrence(s, loops)]
    case TickWord(_) => [Occurrence(s, loops)]
    case SelfCall => [Occurrence(s, loops)]
    case Leave => [Occurrence(s, loops)]
  }

  /** `i` stands in a do-loop and `j` in two, nothing is declared inside a word, `exit` and `recurse`
      stand inside one, and a word is called only after its definition has begun. */
  predicate Allowed(o: Occurrence, inWord: bool, words: nat) {
    match o.word
    case Prim(op, n) =>
      && op !in {DefinedWord, ExitWord, DefinedWordLocation, Halt, BranchLocation, BranchIfZero, Branch, Do, Loop,
                 PushOffsetAddress, Entry}
      && (op == DeclareVariable || op == DeclareConstant ==> !inWord)
      && (op == BuiltinWord && n == 14 ==> o.loops >= 1)
      && (op == BuiltinWord && n == 15 ==> o.loops >= 2)
    case Call(k) => k < words
    case TickWord(k) => k < words
    case SelfCall => inWord
    case Leave => inWord
    case _ => true
  }

  ghost predicate AllAllowed(os: seq<Occurrence>, inWord: bool, words: nat) {
    forall i :: 0 <= i < |os| ==> Allowed(os[i], inWord, words)
  }

  lemma {:induction false} AllowedInBoth(x: seq<Occurrence>, y: seq<Occurrence>, inWord: bool, words: nat)
    ensures AllAllowed(x + y, inWord, words) <==> AllAllowed(x, inWord, words) && AllAllowed(y, inWord, words)
  {
    hide Allowed;
    if AllAllowed(x + y, inWord, words) {
      forall i | 0 <= i < |x| ensures Allowed(x[i], inWord, words) { assert (x + y)[i] == x[i]; }
      forall i | 0 <= i < |y| ensures Allowed(y[i], inWord, words) { assert (x + y)[|x| + i] == y[i]; }
    }
  }

  lemma {:induction false} AllowedAlone(s: Stmt, inWord: bool, words: nat, loops: nat)
    requires s.Empty? || s.Prim? || s.Call? || s.TickWord? || s.SelfCall? || s.Leave? || s.Unlooped?
    ensures WellFormed(s, inWord, words, loops) <==> AllAllowed(Occurrences(s, loops), inWord, words)
  {
    if !s.Empty? && !s.Unlooped? { assert Occurrences(s, loops)[0] == Occurrence(s, loops); }
  }

  /** Structured code is well-formed if and only if every word in it is allowed where it stands. */
  lemma {:induction false} WellFormedExactly(s: Stmt, inWord: bool, words: nat, loops: nat)
    ensures WellFormed(s, inWord, words, loops) <==> AllAllowed(Occurrences(s, loops), inWord, words)
  {
    hide AllAllowed;
    match s
    case Chain(a, b) =>
      WellFormedExactly(a, inWord, words, loops);
      WellFormedExactly(b, inWord, words, loops);
      AllowedInBoth(Occurrences(a, loops), Occurrences(b, loops), inWord, words);
    case IfThen(b) => WellFormedExactly(b, inWord, words, loops);
    case IfElse(a, b) =>
      WellFormedExactly(a, inWord, words, loops);
      WellFormedExactly(b, inWord, words, loops);
      AllowedInBoth(Occurrences(a, loops), Occurrences(b, loops), inWord, words);
    case BeginUntil(b) => WellFormedExactly(b, inWord, words, loops);
    case BeginAgain(b) => WellFormedExactly(b, inWord, words, loops);
    case BeginWhile(c, b) =>
      WellFormedExactly(c, inWord, words, loops);
      WellFormedExactly(b, inWord, words, loops);
      AllowedInBoth(Occurrences(c, loops), Occurrences(b, loops), inWord, words);
    case DoLoop(b) => WellFormedExactly(b, inWord, words, loops + 1);
    case Empty => AllowedAlone(s, inWord, words, loops);
    case Unlooped => AllowedAlone(s, inWord, words, loops);
    case Prim(_, _) => AllowedAlone(s, inWord, words, loops);
    case Call(_) => AllowedAlone(s, inWord, words, loops);
    case TickWord(_) => AllowedAlone(s, inWord, words, loops);
    case SelfCall => AllowedAlone(s, inWord, words, loops);
    case Leave => AllowedAlone(s, inWord, words, loops);
  }
}
