/** The frame pointer of x86 words (x86-32_backend.c:193-199, 387-398): a word that keeps loop cells
    or makes calls saves it at its start, and then every exit of the word restores it; a word that
    does neither has no such bytes anywhere. */
module X86Frames {
  import opened Common
  import opened Fragments
  import opened NumCodec
  import opened FrontEnd
  import opened Conservation
  import opened Grammar
  import opened Partition
  import opened FragmentMachine
  import opened Relaxation
  import opened X86Backend
  import LoopsFlag
  import Pipeline

  /** The bytes from the start of place k to the start of the next place. */
  ghost function BytesOf(t: Tables, frags: seq<Fragment>, order: seq<nat>, r: seq<nat>, k: nat): seq<byte>
    requires Sound(t, frags, order) && |r| == |order| && k < |order|
  {
    StartAndEnd(t, frags, order, r, k);
    var b := BackendOf(t, frags, order);
    CodeBytes(t, frags, order, r)[Position(b, r, k)..Position(b, r, k + 1)]
  }

  lemma {:induction false} StartAndEnd(t: Tables, frags: seq<Fragment>, order: seq<nat>, r: seq<nat>, k: nat)
    requires Sound(t, frags, order) && |r| == |order| && k < |order|
    ensures var b := BackendOf(t, frags, order);
      Position(b, r, k) <= Position(b, r, k + 1) <= |CodeBytes(t, frags, order, r)|
  {
    hide Sound, Chunk, Position, CodeBytes, BackendOf, SizeAt;
    EmissionAgreesWithSizing(t, frags, order, r, k);
    NextPositionOf(BackendOf(t, frags, order), r, k);
    SizeAtIs(t, frags, order, k, r[k]);
  }

  lemma {:induction false} BytesAre(t: Tables, frags: seq<Fragment>, order: seq<nat>, r: seq<nat>, k: nat)
    requires Sound(t, frags, order) && |r| == |order| && k < |order| && order[k] < |frags|
    requires frags[order[k]].op == ExitWord || frags[order[k]].op == DefinedWordLocation
    ensures BytesOf(t, frags, order, r, k)
        == Body(t, frags[order[k]], IsFramed(frags, frags[order[k]]), 0, 0)
  {
    hide Body, BodySize, Position, Caps, CodeBytes, IsFramed, BackendOf;
    EmissionAgreesWithSizing(t, frags, order, r, k);
    PlainChunk(t, frags, order, r, k);
    NextPositionOf(BackendOf(t, frags, order), r, k);
    SizeAtIs(t, frags, order, k, r[k]);
  }

  lemma {:induction false} SizeAtIs(t: Tables, frags: seq<Fragment>, order: seq<nat>, k: nat, x: nat)
    ensures BackendOf(t, frags, order).size(k, x) == SizeAt(t, frags, order, k, x)
  {
    hide SizeAt;
  }

  lemma {:induction false} PlainChunk(t: Tables, frags: seq<Fragment>, order: seq<nat>, r: seq<nat>, k: nat)
    requires Sound(t, frags, order) && |r| == |order| && k < |order| && order[k] < |frags|
    requires frags[order[k]].op == ExitWord || frags[order[k]].op == DefinedWordLocation
    ensures Chunk(t, frags, order, r, k) == Body(t, frags[order[k]], IsFramed(frags, frags[order[k]]), 0, 0)
  {
    hide Position, Caps, IsFramed, FlagsOf, BodySize, BackendOf;
    FlagAt(t, frags, order, |order|, k);
    var x := Chunk(t, frags, order, r, k);
    assert [] + x + [] == x;
  }

  /** Every exit gives back what the start of its word has saved, and nothing else does. */
  lemma {:induction false} ExitMatchesStart(t: Tables, frags: seq<Fragment>, order: seq<nat>, r: seq<nat>,
      j: nat, k: nat)
    requires Sound(t, frags, order) && |r| == |order| && j < |order| && k < |order|
    requires order[j] < |frags| && frags[order[j]].op == ExitWord && frags[order[j]].param == order[k]
    requires order[k] < |frags| && frags[order[k]].op == DefinedWordLocation
    ensures BytesOf(t, frags, order, r, k)
        == if frags[order[k]].loops || frags[order[k]].calls then [0x55, 0x89, 0xe5] else []
    ensures BytesOf(t, frags, order, r, j) == if BytesOf(t, frags, order, r, k) != [] then [0xc9, 0xc3] else [0xc3]
  {
    hide Sound, BytesOf;
    BytesAre(t, frags, order, r, j);
    BytesAre(t, frags, order, r, k);
  }

  // ----- in the code of accepted tokens -----

  ghost predicate NoCalls(st: State) {
    forall i :: 0 <= i < |st.frags| ==> !st.frags[i].calls
  }

  lemma {:induction false} StepMakesNoCalls(st: State, t: Token)
    requires NoCalls(st) && StepToken(None, st, t).Ok?
    ensures NoCalls(StepToken(None, st, t).value)
  {
    hide OpenLoops, LoopsNeeded, ScanBack;
  }

  /** Where no operation uses the link register the CALLS flag is never set. */
  lemma {:induction false} RunMakesNoCalls(st: State, ts: seq<Token>)
    requires NoCalls(st) && RunTokens(None, st, ts).Ok?
    ensures NoCalls(RunTokens(None, st, ts).value)
    decreases |ts|
  {
    hide NoCalls, StepToken;
    if ts != [] {
      StepMakesNoCalls(st, ts[0]);
      RunMakesNoCalls(StepToken(None, st, ts[0]).value, ts[1..]);
    }
  }

  lemma {:induction false} CompiledHasNoCalls(ts: seq<Token>)
    requires Compiled(None, ts).Ok?
    ensures NoCalls(Compiled(None, ts).value)
  {
    hide RunTokens;
    RunMakesNoCalls(InitialState(), ts);
  }

  /** In the code of accepted tokens the parameter of an exit is the location of a word, and the
      location has a place. */
  lemma {:induction false} ExitNamesWord(lr: Option<Opcode -> bool>, ts: seq<Token>, j: nat) returns (w: nat, k: nat)
    requires Compiled(lr, ts).Ok?
    requires var c := Pipeline.LinkedCode(lr, ts);
      j < |c.order| && c.order[j] < |c.frags| && c.frags[c.order[j]].op == ExitWord
    ensures var c := Pipeline.LinkedCode(lr, ts);
      && w < |c.words| && c.frags[c.order[j]].param == c.words[w]
      && c.words[w] < |c.frags| && c.frags[c.words[w]].op == DefinedWordLocation
      && k < |c.order| && c.order[k] == c.words[w]
  {
    hide Compiled, Partitioned, Counted, ControlOk;
    AllPlacedOnSuccess(lr, ts);
    var st, c := Compiled(lr, ts).value, Pipeline.LinkedCode(lr, ts);
    var f := c.frags[c.order[j]];
    assert TargetOk(st, f);
    w :| 0 <= w < |st.words| && st.words[w] == f.param;
    assert WordOk(st, st.words[w]);
    Pipeline.StaysPlaced(st.frags, st.sequence, f.param);
    k :| 0 <= k < |c.order| && c.order[k] == f.param;
  }

  /** In every layout of accepted tokens: at an exit stand `leave` and `ret` if and only if
      `push ebp` and `mov ebp, esp` stand at the start of its word, and otherwise `ret` alone. */
  lemma {:induction false} ExitsGiveBackFrames(t: Tables, lr: Option<Opcode -> bool>, ts: seq<Token>, r: seq<nat>,
      j: nat)
    returns (w: nat, k: nat)
    requires Compiled(lr, ts).Ok?
    requires LaidOut(t, Pipeline.LinkedCode(lr, ts).frags, Pipeline.LinkedCode(lr, ts).order, r)
    requires var c := Pipeline.LinkedCode(lr, ts);
      j < |c.order| && c.order[j] < |c.frags| && c.frags[c.order[j]].op == ExitWord
    ensures var c := Pipeline.LinkedCode(lr, ts);
      && w < |c.words| && c.frags[c.order[j]].param == c.words[w] && k < |c.order| && c.order[k] == c.words[w]
      && var start, exit := BytesOf(t, c.frags, c.order, r, k), BytesOf(t, c.frags, c.order, r, j);
         (start == [0x55, 0x89, 0xe5] && exit == [0xc9, 0xc3]) || (start == [] && exit == [0xc3])
  {
    hide Compiled, Sound, Solved, BelowSolved, BytesOf, Pipeline.LinkedCode;
    w, k := ExitNamesWord(lr, ts, j);
    var c := Pipeline.LinkedCode(lr, ts);
    ExitMatchesStart(t, c.frags, c.order, r, j, k);
  }

  /** On x86 no operation uses a link register, and so the start of a word saves the frame pointer
      if and only if some `exit` of its body stands under a do-loop. */
  lemma {:induction false} StartSavesExactly(t: Tables, items: seq<Item>, r: seq<nat>, w: nat, k: nat)
    requires SourceWellFormed(items) && w < |Definitions(items)| && Compiled(None, SourceText(items, [])).Ok?
    requires var c := Pipeline.LinkedCode(None, SourceText(items, []));
      LaidOut(t, c.frags, c.order, r) && w < |c.words| && k < |c.order| && c.order[k] == c.words[w]
    ensures var c := Pipeline.LinkedCode(None, SourceText(items, []));
      BytesOf(t, c.frags, c.order, r, k)
      == if LoopsFlag.LeaveUnder(Definitions(items)[w], false) then [0x55, 0x89, 0xe5] else []
  {
    hide Compiled, Sound, Solved, BelowSolved, BytesOf, SourceWellFormed, SourceText, Definitions,
        LoopsFlag.LeaveUnder, Partitioned,
        Counted, ControlOk, TargetsOk;
    var ts := SourceText(items, []);
    LoopsFlag.LoopsFlagIsExact(None, items, w);
    CompiledHasNoCalls(ts);
    AllPlacedOnSuccess(None, ts);
    var st, c := Compiled(None, ts).value, Pipeline.LinkedCode(None, ts);
    assert WordOk(st, st.words[w]);
    BytesAre(t, c.frags, c.order, r, k);
  }
}
