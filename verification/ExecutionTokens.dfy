/** Execution tokens (vm_engine.c:702-724): `execute` finds every word by its token, in any image no
    two words have the same one, and so `' word execute` does what `word` does. */
module ExecutionTokens {
  import opened Common
  import opened Fragments
  import opened FrontEnd
  import opened Conservation
  import opened Grammar
  import opened Program
  import opened Partition
  import opened Semantics
  import opened FragmentMachine
  import opened Simulation
  import opened Linking
  import opened SourceMeaning
  import opened Relaxation
  import opened VmBackend
  import opened VmMachine
  import opened ByteDecoding
  import opened Pipeline

  // ----- the search -----

  /** The first word with the token is found, and one is found exactly when there is one. */
  lemma {:induction false} FindsFirst(tokens: seq<int>, x: int)
    ensures FindToken(tokens, x).Some? <==> x in tokens
    ensures FindToken(tokens, x).Some? ==>
      var k := FindToken(tokens, x).value; k < |tokens| && tokens[k] == x && forall j :: 0 <= j < k ==> tokens[j] != x
  {
    if tokens != [] {
      var low := tokens[..|tokens| - 1];
      FindsFirst(low, x);
      assert tokens == low + [tokens[|tokens| - 1]];
      if x in low { assert FindToken(low, x).Some?; } else { assert forall j :: 0 <= j < |low| ==> low[j] != x; }
    }
  }

  ghost predicate Apart(tokens: seq<int>) {
    forall j, k :: 0 <= j < k < |tokens| ==> tokens[j] != tokens[k]
  }

  lemma {:induction false} FindsWord(tokens: seq<int>, k: nat)
    requires Apart(tokens) && k < |tokens|
    ensures FindToken(tokens, tokens[k]) == Some(k)
  {
    hide FindToken;
    FindsFirst(tokens, tokens[k]);
  }

  // ----- `' word execute` -----

  /** Where the token has room on the data stack, `' word execute` is a call of the word, with the
      same outcome whatever the word does; without room the push fails. */
  lemma {:induction false} ExecuteIsCall(d: Dictionary, cur: int, k: nat, param: int, fuel: nat, depth: nat, l: Local)
    requires Apart(d.tokens) && k < |d.tokens| && |d.bodies| == |d.tokens|
    ensures Eval(d, cur, Chain(TickWord(k), Prim(Execute, param)), fuel, depth, l) ==
      if |l.ds| < STACK_CELLS then Eval(d, cur, Call(k), fuel, depth, l) else Failed(STACK_OVERFLOW, l.w)
  {
    hide FindToken, EvalCall;
    FindsWord(d.tokens, k);
    EvalsChain(d, cur, TickWord(k), Prim(Execute, param), fuel, depth, l);
    if |l.ds| < STACK_CELLS {
      var l1 := l.(ds := l.ds + [d.tokens[k]]);
      assert l1.ds[..|l1.ds| - 1] == l.ds;
      if depth + |l.cells| + 2 > RETURN_CELLS { CallNeedsRoom(d, k, fuel, depth, l); }
    }
  }

  lemma {:induction false} EvalsChain(d: Dictionary, cur: int, a: Stmt, b: Stmt, fuel: nat, depth: nat, l: Local)
    ensures var o := Eval(d, cur, a, fuel, depth, l);
      Eval(d, cur, Chain(a, b), fuel, depth, l) == if o.Ended? then Eval(d, cur, b, fuel, depth, o.l) else o
  {
  }

  lemma {:induction false} CallNeedsRoom(d: Dictionary, k: nat, fuel: nat, depth: nat, l: Local)
    requires k < |d.bodies| && depth + |l.cells| + 2 > RETURN_CELLS
    ensures EvalCall(d, k, fuel, depth, l) == Failed(STACK_OVERFLOW, l.w)
  {
  }

  // ----- no two words have the same address -----

  /** The exit that ends word j, before linking. */
  lemma {:induction false} WordEnds(c: Code, items: seq<Item>, j: nat) returns (e: nat)
    requires ItemsPlaced(c, items) && j < |Definitions(items)|
    ensures j < |c.words| && c.words[j] < e < Extent(items) && e < |c.order|
    ensures c.order[c.words[j]] == c.words[j] && InWord(c.frags, c.order[c.words[j]])
    ensures InWord(c.frags, c.order[e]) && c.frags[c.order[e]].op == ExitWord
    decreases |items|
  {
    hide Placed, Size;
    var low, last := items[..|items| - 1], items[|items| - 1];
    if j < |Definitions(low)| {
      e := WordEnds(c, low, j);
    } else {
      var at := Extent(low);
      e := at + 1 + Size(last.body);
      KindIs(c, at, at + ItemSize(last), true, at);
      KindIs(c, at, at + ItemSize(last), true, e);
    }
  }

  /** It stands before the next words. */
  lemma {:induction false} LaterWord(c: Code, items: seq<Item>, j: nat, k: nat) returns (e: nat)
    requires ItemsPlaced(c, items) && j < k < |Definitions(items)|
    ensures k < |c.words| && c.words[j] < e < c.words[k] < |c.order|
    ensures c.order[c.words[j]] == c.words[j] && InWord(c.frags, c.order[c.words[j]])
    ensures c.order[c.words[k]] == c.words[k] && InWord(c.frags, c.order[c.words[k]])
    ensures InWord(c.frags, c.order[e]) && c.frags[c.order[e]].op == ExitWord
    decreases |items|
  {
    hide Placed, Size;
    var low, last := items[..|items| - 1], items[|items| - 1];
    if k < |Definitions(low)| {
      e := LaterWord(c, low, j, k);
    } else {
      e := WordEnds(c, low, j);
      KindIs(c, Extent(low), Extent(low) + ItemSize(last), true, Extent(low));
    }
  }

  /** So between two words there is an exit after linking too. */
  lemma {:induction false} ExitBetween(c: Code, items: seq<Item>, j: nat, k: nat) returns (e: nat)
    requires AllPlaced(c, items) && NoRepeats(c.order) && j < k < |Definitions(items)|
    ensures var order := Linked(c).order;
      && k < |c.words| && IndexOf(order, c.words[j]) < e < IndexOf(order, c.words[k]) < |order|
      && order[e] < |c.frags| && c.frags[order[e]].op == ExitWord
  {
    hide ItemsPlaced, NewPlace, Partitioned, At;
    var i := LaterWord(c, items, j, k);
    StableOrder(c.frags, c.order, c.words[j], i);
    StableOrder(c.frags, c.order, i, c.words[k]);
    PlaceOf(c, c.words[j]);
    PlaceOf(c, c.words[k]);
    MovesTo(c.frags, c.order, i);
    e := NewPlace(c.frags, c.order, i);
  }

  lemma {:induction false} PlaceOf(c: Code, k: nat)
    requires NoRepeats(c.order) && k < |c.order|
    ensures IndexOf(Linked(c).order, c.order[k]) == NewPlace(c.frags, c.order, k) < |Linked(c).order|
  {
    hide NewPlace, Partitioned, IndexOf;
    MovesTo(c.frags, c.order, k);
    PartitionedNoRepeats(c.frags, c.order);
    IndexIs(Linked(c).order, NewPlace(c.frags, c.order, k));
  }

  /** An exit takes a byte, so what stands behind it has a higher address. */
  lemma {:induction false} AddressesGrow(frags: seq<Fragment>, order: seq<nat>, r: seq<nat>, a: nat, e: nat, z: nat)
    requires a <= e < z <= |r| == |order| && order[e] < |frags| && frags[order[e]].op == ExitWord
    ensures Position(BackendOf(frags, order), r, a) < Position(BackendOf(frags, order), r, z)
  {
    hide Position;
    PositionGrows(frags, order, r, a, e);
    PositionGrows(frags, order, r, e + 1, z);
    ExitTakesByte(frags, order, r, e);
  }

  lemma {:induction false} ExitTakesByte(frags: seq<Fragment>, order: seq<nat>, r: seq<nat>, e: nat)
    requires e < |r| == |order| && order[e] < |frags| && frags[order[e]].op == ExitWord
    ensures Position(BackendOf(frags, order), r, e + 1) == Position(BackendOf(frags, order), r, e) + 1
  {
    OpcodeIsOneByte(ExitWord);
  }

  lemma {:induction false} WordsCount(c: Code, items: seq<Item>)
    requires AllPlaced(c, items)
    ensures |c.words| == |Definitions(items)|
  {
    hide ItemsPlaced, At, OfKind;
  }

  /** In every image the words have different addresses, in the order of their definition. */
  lemma {:induction false} TokensGrow(vm: Vm, lr: Option<Opcode -> bool>, ts: seq<Token>, r: seq<nat>, j: nat, k: nat)
    requires Built(vm, lr, ts, r)
    requires var c := LinkedCode(lr, ts); j < k < |c.words|
    ensures var tokens := Tokens(MachineOf(vm, LinkedCode(lr, ts), r)); k < |tokens| && tokens[j] < tokens[k]
  {
    hide Compiled, Solved, BelowSolved, CodeBytes, IndexOf, Position, SourceWellFormed, SourceText, AllPlaced,
        Partitioned;
    AcceptanceIsExact(lr, ts);
    var items :| SourceWellFormed(items) && ts == SourceText(items, []);
    StructuredIsAccepted(lr, items);
    AllPlacedOnSuccess(lr, ts);
    LinkedIsSound(lr, ts);
    var c, c1 := CodeOf(Compiled(lr, ts).value), LinkedCode(lr, ts);
    WordsCount(c, items);
    var e := ExitBetween(c, items, j, k);
    AddressesGrow(c1.frags, c1.order, r, IndexOf(c1.order, c.words[j]), e, IndexOf(c1.order, c.words[k]));
    AddressesAre(LayoutOf(vm, c1, r), |c1.frags|);
  }

  lemma {:induction false} TokensApart(vm: Vm, lr: Option<Opcode -> bool>, ts: seq<Token>, r: seq<nat>)
    requires Built(vm, lr, ts, r)
    ensures Apart(Tokens(MachineOf(vm, LinkedCode(lr, ts), r)))
    ensures |Tokens(MachineOf(vm, LinkedCode(lr, ts), r))| == |LinkedCode(lr, ts).words|
  {
    hide Built, LinkedCode;
    BuiltAccepts(vm, lr, ts, r);
    var tokens := Tokens(MachineOf(vm, LinkedCode(lr, ts), r));
    forall j, k | 0 <= j < k < |tokens| ensures tokens[j] != tokens[k] {
      TokensGrow(vm, lr, ts, r, j, k);
    }
  }

  /** In every image `' word execute` means what `word` means, for every word. */
  lemma {:induction false} ExecuteIsCallInImage(vm: Vm, lr: Option<Opcode -> bool>, ts: seq<Token>, r: seq<nat>,
      items: seq<Item>, cur: int, k: nat, param: int, fuel: nat, depth: nat, l: Local)
    requires Built(vm, lr, ts, r) && SourceWellFormed(items) && ts == SourceText(items, [])
    requires k < |Definitions(items)|
    ensures var d := DictionaryOf(MachineOf(vm, LinkedCode(lr, ts), r), items);
      Eval(d, cur, Chain(TickWord(k), Prim(Execute, param)), fuel, depth, l) ==
        if |l.ds| < STACK_CELLS then Eval(d, cur, Call(k), fuel, depth, l) else Failed(STACK_OVERFLOW, l.w)
  {
    hide Compiled, Eval, SourceWellFormed, SourceText, AllPlaced, Tokens, Sound, Solved, BelowSolved, CodeBytes, Apart;
    TokensApart(vm, lr, ts, r);
    StructuredIsAccepted(lr, items);
    WordsCount(CodeOf(Compiled(lr, ts).value), items);
    ExecuteIsCall(DictionaryOf(MachineOf(vm, LinkedCode(lr, ts), r), items), cur, k, param, fuel, depth, l);
  }
}
