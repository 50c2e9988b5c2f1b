/** A whole source, from tokens to the partitioned sequence: where every definition and every
    piece of top-level code ends up. */
module Program {
  import opened Common
  import opened Fragments
  import opened FrontEnd
  import opened Grammar
  import opened Structured
  import opened Placement

  function ItemSize(item: Item): nat {
    match item
    case Main(s) => Size(s)
    case Definition(s) => Size(s) + 2
  }

  /** Fragments created and placed by ENTRY and the items. */
  function Extent(items: seq<Item>): nat {
    if items == [] then 1 else Extent(items[..|items| - 1]) + ItemSize(items[|items| - 1])
  }

  /** All fragments from place lo to hi belong to words, or all to the main program. */
  ghost predicate OfKind(c: Code, lo: nat, hi: nat, word: bool) {
    hi <= |c.order| && forall k :: lo <= k < hi ==> c.order[k] < |c.frags| && c.frags[c.order[k]].isWord == word
  }

  /** An item stands where its fragments were created: at an item boundary as many fragments are
      placed as created. */
  ghost predicate ItemPlaced(c: Code, d: nat, item: Item, at: nat) {
    && OfKind(c, at, at + ItemSize(item), item.Definition?)
    && match item
       case Main(s) => Placed(c, d - 1, s, at, at)
       case Definition(s) =>
         && d < |c.words| && c.words[d] == at
         && at < |c.order| && c.order[at] == at && at < |c.frags| && c.frags[at].op == DefinedWordLocation
         && Placed(c, d, s, at + 1, at + 1)
         && At(c, at + 1 + Size(s), at + 1 + Size(s), ExitWord, at)
  }

  ghost predicate ItemsPlaced(c: Code, items: seq<Item>) {
    if items == [] then At(c, 0, 0, Entry, 0) && OfKind(c, 0, 1, false)
    else
      var low, last := items[..|items| - 1], items[|items| - 1];
      ItemsPlaced(c, low) && ItemPlaced(c, |Definitions(low)|, last, Extent(low))
  }

  /** The state between two items. */
  ghost predicate AfterItems(st: State, items: seq<Item>) {
    && !st.defining && st.cf == [] && |st.words| == |Definitions(items)|
    && |st.frags| == Extent(items) && |st.sequence| == Extent(items)
    && ItemsPlaced(CodeOf(st), items)
  }

  lemma {:induction false} OfKindExtends(a: Code, b: Code, lo: nat, hi: nat, word: bool)
    requires Extends(a, b) && OfKind(a, lo, hi, word)
    ensures OfKind(b, lo, hi, word)
  {
    forall k | lo <= k < hi ensures b.order[k] < |b.frags| && b.frags[b.order[k]].isWord == word {
      assert b.order[k] == a.order[k];
    }
  }

  lemma {:induction false} ItemExtends(a: Code, b: Code, d: nat, item: Item, at: nat)
    requires Extends(a, b) && ItemPlaced(a, d, item, at) && at + ItemSize(item) <= |a.frags|
    ensures ItemPlaced(b, d, item, at)
  {
    hide Placed, Size, OfKind;
    ItemEnd(a, d, item, at);
    OfKindExtends(a, b, at, at + ItemSize(item), item.Definition?);
    match item
    case Main(s) => PlacedExtends(a, b, d - 1, s, at, at);
    case Definition(s) => PlacedExtends(a, b, d, s, at + 1, at + 1);
  }

  lemma {:induction false} ItemEnd(c: Code, d: nat, item: Item, at: nat)
    requires ItemPlaced(c, d, item, at)
    ensures at + ItemSize(item) <= |c.order|
  {
    hide Placed, Size;
  }

  lemma {:induction false} ItemsExtend(a: Code, b: Code, items: seq<Item>)
    requires Extends(a, b) && ItemsPlaced(a, items) && Extent(items) <= |a.frags|
    ensures ItemsPlaced(b, items)
    decreases |items|
  {
    hide Placed, Size, ItemPlaced, Extends;
    if items == [] {
      AtExtends(a, b, 0, 0, Entry, 0);
      OfKindExtends(a, b, 0, 1, false);
    } else {
      var low, last := items[..|items| - 1], items[|items| - 1];
      ItemsExtend(a, b, low);
      ItemExtends(a, b, |Definitions(low)|, last, Extent(low));
    }
  }

  lemma {:induction false} ColonStep(lr: Option<Opcode -> bool>, st: State) returns (s1: State)
    requires !st.defining && st.cf == []
    ensures StepToken(lr, st, Colon) == Ok(s1)
    ensures s1.defining && s1.cf == [] && s1.words == st.words + [|st.frags|]
    ensures Extends(CodeOf(st), CodeOf(s1)) && Sized(st, s1, 1, 1)
    ensures s1.frags[|st.frags|].op == DefinedWordLocation && s1.frags[|st.frags|].isWord
    ensures s1.sequence[|st.sequence|] == |st.frags|
  {
    s1 := StepToken(lr, st, Colon).value;
  }

  lemma {:induction false} SemicolonStep(lr: Option<Opcode -> bool>, st: State) returns (s1: State)
    requires st.defining && st.cf == [] && Ready(st)
    ensures StepToken(lr, st, Semicolon) == Ok(s1)
    ensures !s1.defining && s1.cf == [] && s1.words == st.words
    ensures Extends(CodeOf(st), CodeOf(s1)) && Sized(st, s1, 1, 1)
    ensures At(CodeOf(s1), |st.sequence|, |st.frags|, ExitWord, Current(st)) && s1.frags[|st.frags|].isWord
  {
    s1 := StepToken(lr, st, Semicolon).value;
    hide ScanBack;
  }

  lemma {:induction false} MainCompiles(lr: Option<Opcode -> bool>, st: State, items: seq<Item>, s: Stmt,
      rest: seq<Token>) returns (z: State)
    requires AfterItems(st, items) && WellFormed(s, false, |Definitions(items)|, 0)
    ensures RunTokens(lr, st, Text(s, rest)) == RunTokens(lr, z, rest)
    ensures z.cf == [] && !z.defining && z.words == st.words && Sized(st, z, Size(s), Size(s))
    ensures Extends(CodeOf(st), CodeOf(z)) && ItemPlaced(CodeOf(z), |st.words|, Main(s), |st.frags|)
  {
    hide WellFormed, Placed, Size, RunTokens, Text, Extends;
    assert OpenLoops([]) == 0;
    z := Compiles(lr, st, s, rest);
  }

  lemma {:induction false} DefinitionCompiles(lr: Option<Opcode -> bool>, st: State, items: seq<Item>, s: Stmt,
      rest: seq<Token>) returns (z: State)
    requires AfterItems(st, items) && WellFormed(s, true, |Definitions(items)| + 1, 0)
    ensures RunTokens(lr, st, [Colon] + Text(s, [Semicolon] + rest)) == RunTokens(lr, z, rest)
    ensures z.cf == [] && !z.defining && |z.words| == |st.words| + 1 && Sized(st, z, Size(s) + 2, Size(s) + 2)
    ensures Extends(CodeOf(st), CodeOf(z)) && ItemPlaced(CodeOf(z), |st.words|, Definition(s), |st.frags|)
  {
    hide WellFormed, Placed, Size, RunTokens, Text, StepToken, ItemPlaced, ItemsPlaced, Extends, At, Grew;
    var s1 := ColonStep(lr, st);
    RunOne(lr, st, Colon, Text(s, [Semicolon] + rest), s1);
    assert OpenLoops([]) == 0;
    hide OpenLoops;
    var s2 := Compiles(lr, s1, s, [Semicolon] + rest);
    Counts(s1, s2, |s1.frags|);
    z := SemicolonStep(lr, s2);
    RunOne(lr, s2, Semicolon, rest, z);
    DefinitionPlaced(st, s1, s2, z, s);
  }

  lemma {:induction false} Counts(st: State, s1: State, base: nat)
    requires Grew(st, s1, base)
    ensures s1.defining == st.defining && s1.words == st.words && Extends(CodeOf(st), CodeOf(s1))
    ensures Ready(st) ==> Ready(s1)
  {
  }

  lemma {:induction false} DefinitionPlaced(st: State, s1: State, s2: State, z: State, s: Stmt)
    requires |st.frags| == |st.sequence|
    requires Extends(CodeOf(st), CodeOf(s1)) && Sized(st, s1, 1, 1) && s1.words == st.words + [|st.frags|]
        && s1.defining
    requires s1.frags[|st.frags|].op == DefinedWordLocation && s1.frags[|st.frags|].isWord
        && s1.sequence[|st.sequence|] == |st.frags|
    requires CompiledTo(s1, s2, s)
    requires Extends(CodeOf(s2), CodeOf(z)) && Sized(s2, z, 1, 1) && z.words == s2.words
    requires At(CodeOf(z), |s2.sequence|, |s2.frags|, ExitWord, |st.frags|) && z.frags[|s2.frags|].isWord
    ensures Extends(CodeOf(st), CodeOf(z)) && Sized(st, z, Size(s) + 2, Size(s) + 2) && |z.words| == |st.words| + 1
    ensures ItemPlaced(CodeOf(z), |st.words|, Definition(s), |st.frags|)
  {
    hide Placed, Size;
    var at, end := |st.frags|, |st.frags| + 1 + Size(s);
    assert s2.words == s1.words && |s1.words| - 1 == |st.words|;
    PlacedExtends(CodeOf(s2), CodeOf(z), |st.words|, s, at + 1, at + 1);
    forall k | at <= k < at + Size(s) + 2 ensures z.sequence[k] < |z.frags| && z.frags[z.sequence[k]].isWord {
      if k < end {
        assert z.sequence[k] == s2.sequence[k];
        if k == at { assert s2.sequence[k] == s1.sequence[k]; }
      }
    }
  }

  lemma {:induction false} ItemAdded(st: State, z: State, items: seq<Item>)
    requires items != []
    requires var low, last := items[..|items| - 1], items[|items| - 1];
      && AfterItems(st, low) && Extends(CodeOf(st), CodeOf(z)) && Sized(st, z, ItemSize(last), ItemSize(last))
      && ItemPlaced(CodeOf(z), |st.words|, last, |st.frags|)
      && |z.words| == |st.words| + (if last.Definition? then 1 else 0)
    requires z.cf == [] && !z.defining
    ensures AfterItems(z, items)
  {
    hide ItemPlaced, Extends, Size, ItemSize;
    ItemsExtend(CodeOf(st), CodeOf(z), items[..|items| - 1]);
  }

  lemma {:induction false} ItemCompiles(lr: Option<Opcode -> bool>, st: State, low: seq<Item>, last: Item,
      rest: seq<Token>) returns (z: State)
    requires AfterItems(st, low) && ItemWellFormed(last, |Definitions(low)|)
    ensures RunTokens(lr, st, ItemText(last, rest)) == RunTokens(lr, z, rest)
    ensures z.cf == [] && !z.defining && |z.words| == |st.words| + (if last.Definition? then 1 else 0)
    ensures Sized(st, z, ItemSize(last), ItemSize(last)) && Extends(CodeOf(st), CodeOf(z))
    ensures ItemPlaced(CodeOf(z), |st.words|, last, |st.frags|)
  {
    hide AfterItems, ItemPlaced, Extends, Size, RunTokens, WellFormed, Definitions, Text;
    match last
    case Main(s) => z := MainCompiles(lr, st, low, s, rest);
    case Definition(s) => z := DefinitionCompiles(lr, st, low, s, rest);
  }

  /** Every well-formed source is accepted, item by item. */
  lemma {:induction false} SourceCompiles(lr: Option<Opcode -> bool>, items: seq<Item>, rest: seq<Token>)
      returns (z: State)
    requires SourceWellFormed(items)
    ensures RunTokens(lr, InitialState(), SourceText(items, rest)) == RunTokens(lr, z, rest)
    ensures AfterItems(z, items)
    decreases |items|
  {
    hide RunTokens, ItemPlaced, ItemsPlaced, Size, ItemWellFormed, ItemText, Extends, ItemSize;
    if items == [] {
      z := InitialState();
      StartsPlaced();
    } else {
      var low, last := items[..|items| - 1], items[|items| - 1];
      var st := SourceCompiles(lr, low, ItemText(last, rest));
      z := ItemCompiles(lr, st, low, last, rest);
      ItemAdded(st, z, items);
    }
  }

  lemma {:induction false} StartsPlaced()
    ensures AfterItems(InitialState(), [])
  {
  }

  /** What the token loop leaves: the items in order, then HALT. */
  ghost predicate AllPlaced(c: Code, items: seq<Item>) {
    && ItemsPlaced(c, items)
    && At(c, Extent(items), Extent(items), Halt, -1) && OfKind(c, Extent(items), Extent(items) + 1, false)
    && |c.order| == Extent(items) + 1 && |c.frags| == Extent(items) + 1
    && |c.words| == |Definitions(items)|
  }

  lemma {:induction false} HaltPlaced(st: State, items: seq<Item>)
    requires AfterItems(st, items)
    ensures AllPlaced(CodeOf(Emit(st, Halt, -1)), items)
  {
    hide ItemsPlaced, Extent, Definitions;
    var z := Emit(st, Halt, -1);
    EmitGrows(st, Halt, -1);
    ItemsExtend(CodeOf(st), CodeOf(z), items);
  }

  lemma {:induction false} StructuredIsAccepted(lr: Option<Opcode -> bool>, items: seq<Item>)
    requires SourceWellFormed(items)
    ensures Compiled(lr, SourceText(items, [])).Ok?
    ensures AllPlaced(CodeOf(Compiled(lr, SourceText(items, [])).value), items)
  {
    hide SourceWellFormed, SourceText, AllPlaced;
    var st := SourceCompiles(lr, items, []);
    HaltPlaced(st, items);
  }

  /** Acceptance is exact: the compiler accepts a token sequence if and only if it is the text
      of a well-formed, well-nested source. */
  lemma {:induction false} AcceptanceIsExact(lr: Option<Opcode -> bool>, ts: seq<Token>)
    ensures Compiled(lr, ts).Ok? <==> exists items :: SourceWellFormed(items) && ts == SourceText(items, [])
  {
    hide SourceWellFormed, SourceText, AllPlaced, Compiled;
    if Compiled(lr, ts).Ok? {
      var items := AcceptedIsStructured(lr, ts);
    }
    if items :| SourceWellFormed(items) && ts == SourceText(items, []) {
      StructuredIsAccepted(lr, items);
    }
  }
}
