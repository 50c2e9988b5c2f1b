/** From tokens to bytes: what the engine does with the image of an accepted source is what the
    source means. */
module Pipeline {
  import opened Common
  import opened Fragments
  import opened NumCodec
  import opened FrontEnd
  import opened Conservation
  import opened Grammar
  import opened Partition
  import opened Program
  import opened Semantics
  import opened FragmentMachine
  import opened Linking
  import opened SourceMeaning
  import opened Relaxation
  import opened VmBackend
  import opened VmMachine
  import opened ByteDecoding
  import opened ByteSimulation

  // ----- parameters -----

  /** Lookup gives builtins their table index and everything else a 32-bit parameter. */
  predicate TokenOk(t: Token) {
    t.Plain? ==> IsInt32(t.param) && (t.op == BuiltinWord ==> 0 <= t.param < BUILTIN_COUNT)
  }

  /** So every number that an engine can read back is allowed, and for a builtin the 63 of the table. */
  lemma {:induction false} TokenOkExactly(t: Token)
    ensures !t.Plain? ==> TokenOk(t)
    ensures t.Plain? && t.op != BuiltinWord ==> (TokenOk(t) <==> NumberComesBack(t.param))
    ensures t.Plain? && t.op == BuiltinWord ==> (TokenOk(t) <==> 0 <= t.param < 63)
  {
    hide NumberComesBack;
    if t.Plain? { NumberComesBackExactly(t.param); }
  }

  ghost predicate ParamsOk(frags: seq<Fragment>) {
    forall i :: 0 <= i < |frags| ==> ParamOk(frags[i])
  }

  lemma {:induction false} EmitParams(st: State, op: Opcode, param: int)
    requires ParamsOk(st.frags) && ParamOk(Fragment(op, param, st.defining, false, false))
    ensures ParamsOk(Emit(st, op, param).frags) && ParamsOk(Create(st, op, param).frags)
  {
    hide ParamOk;
  }

  lemma {:induction false} FlagsParams(frags: seq<Fragment>, d: nat, f: Fragment)
    requires ParamsOk(frags) && d < |frags| && f.op == frags[d].op && f.param == frags[d].param
    ensures ParamsOk(frags[d := f])
  {
  }

  lemma {:induction false} ExitParams(lr: Option<Opcode -> bool>, st: State)
    requires st.words != [] && Current(st) < |st.frags| && ParamsOk(st.frags)
    ensures ParamsOk(UpdateCalls(lr, Emit(st, ExitWord, Current(st))).frags)
    ensures ParamsOk(UpdateCalls(lr, MarkLoops(Emit(st, ExitWord, Current(st)))).frags)
  {
    hide ParamsOk, ScanBack, OpenLoops;
    EmitParams(st, ExitWord, Current(st));
    var s1, d := Emit(st, ExitWord, Current(st)), Current(st);
    FlagsParams(s1.frags, d, s1.frags[d].(calls := true));
    var s2 := MarkLoops(s1);
    FlagsParams(s1.frags, d, s1.frags[d].(loops := true));
    FlagsParams(s2.frags, d, s2.frags[d].(calls := true));
  }

  predicate IsControl(t: Token) {
    t.If? || t.Then? || t.Else? || t.DoWord? || t.LoopWord? || t.Begin? || t.Until? || t.While? || t.Repeat? || t.Again?
  }

  lemma {:induction false} StepParams(lr: Option<Opcode -> bool>, st: State, t: Token)
    requires ParamsOk(st.frags) && TokenOk(t) && StepToken(lr, st, t).Ok?
    ensures ParamsOk(StepToken(lr, st, t).value.frags)
  {
    hide ParamsOk, StepToken, TokenOk;
    if IsControl(t) { ControlParams(lr, st, t); } else { WordParams(lr, st, t); }
  }

  lemma {:induction false} WordParams(lr: Option<Opcode -> bool>, st: State, t: Token)
    requires ParamsOk(st.frags) && TokenOk(t) && !IsControl(t) && StepToken(lr, st, t).Ok?
    ensures ParamsOk(StepToken(lr, st, t).value.frags)
  {
    hide ParamsOk, ScanBack, OpenLoops, UpdateCalls, MarkLoops, LoopsNeeded;
    match t
    case Plain(op, param) => EmitParams(st, op, param);
    case CallWord(k) => EmitParams(st, DefinedWord, st.words[k]);
    case Tick(k) => EmitParams(st, PushOffsetAddress, st.words[k]);
    case Recurse => EmitParams(st, DefinedWord, Current(st));
    case Unloop =>
    case Colon => EmitParams(st.(defining := true), DefinedWordLocation, 0);
    case Semicolon => ExitParams(lr, st);
    case Exit => ExitParams(lr, st);
  }

  lemma {:induction false} BranchParams(st: State, op: Opcode, param: int)
    requires ParamsOk(st.frags) && op in {BranchIfZero, Branch, Loop, BranchLocation}
    ensures ParamsOk(Emit(st, op, param).frags)
  {
    hide ParamsOk;
    EmitParams(st, op, param);
  }

  lemma {:induction false} ControlParams(lr: Option<Opcode -> bool>, st: State, t: Token)
    requires ParamsOk(st.frags) && IsControl(t) && StepToken(lr, st, t).Ok?
    ensures ParamsOk(StepToken(lr, st, t).value.frags)
  {
    hide ParamsOk, ParamOk, ShapeOf, OpenLoops, UpdateCalls, MarkLoops, LoopsNeeded;
    match t
    case If => ForwardParams(st, BranchIfZero);
    case Then =>
    case Else => ForwardParams(st, Branch);
    case DoWord => LoopParams(st);
    case LoopWord => BranchParams(st, Loop, Top(st).fragment);
    case Begin => BranchParams(st, BranchLocation, -1);
    case Until => BranchParams(st, BranchIfZero, Top(st).fragment);
    case While => ForwardParams(st, BranchIfZero);
    case Repeat => BranchParams(st, Branch, st.cf[|st.cf| - 2].fragment);
    case Again => BranchParams(st, Branch, Top(st).fragment);
  }

  lemma {:induction false} LoopParams(st: State)
    requires ParamsOk(st.frags)
    ensures ParamsOk(Emit(Emit(st, Do, -1), BranchLocation, -1).frags)
  {
    hide ParamsOk;
    EmitParams(st, Do, -1);
    EmitParams(Emit(st, Do, -1), BranchLocation, -1);
  }

  lemma {:induction false} ForwardParams(st: State, op: Opcode)
    requires ParamsOk(st.frags) && op in {Branch, BranchIfZero}
    ensures ParamsOk(Emit(Create(st, BranchLocation, -1), op, |st.frags|).frags)
  {
    hide ParamsOk;
    EmitParams(st, BranchLocation, -1);
    EmitParams(Create(st, BranchLocation, -1), op, |st.frags|);
  }

  lemma {:induction false} RunParams(lr: Option<Opcode -> bool>, st: State, ts: seq<Token>)
    requires ParamsOk(st.frags) && (forall i :: 0 <= i < |ts| ==> TokenOk(ts[i])) && RunTokens(lr, st, ts).Ok?
    ensures ParamsOk(RunTokens(lr, st, ts).value.frags)
    decreases |ts|
  {
    hide ParamsOk, StepToken, TokenOk;
    if ts != [] {
      StepParams(lr, st, ts[0]);
      RunParams(lr, StepToken(lr, st, ts[0]).value, ts[1..]);
    }
  }

  ghost predicate Accepted(lr: Option<Opcode -> bool>, ts: seq<Token>) {
    Compiled(lr, ts).Ok? && forall i :: 0 <= i < |ts| ==> TokenOk(ts[i])
  }

  lemma {:induction false} CompiledParams(lr: Option<Opcode -> bool>, ts: seq<Token>)
    requires Accepted(lr, ts)
    ensures ParamsOk(Compiled(lr, ts).value.frags)
  {
    hide RunTokens;
    RunParams(lr, InitialState(), ts);
    EmitParams(RunTokens(lr, InitialState(), ts).value, Halt, -1);
  }

  // ----- targets -----

  lemma {:induction false} IndexPresent(order: seq<nat>, id: int)
    requires id in order
    ensures IndexOf(order, id) < |order|
  {
    if order[|order| - 1] != id {
      var k :| 0 <= k < |order| && order[k] == id;
      assert order[..|order| - 1][k] == id;
      IndexPresent(order[..|order| - 1], id);
    } else if id in order[..|order| - 1] {
      IndexPresent(order[..|order| - 1], id);
    }
  }

  lemma {:induction false} StaysPlaced(frags: seq<Fragment>, order: seq<nat>, id: nat)
    requires id in order
    ensures id in Partitioned(frags, order)
  {
    hide Partitioned, NewPlace;
    var k :| 0 <= k < |order| && order[k] == id;
    MovesTo(frags, order, k);
  }

  lemma {:induction false} ComesFrom(frags: seq<Fragment>, order: seq<nat>, k: nat)
    requires NoRepeats(order) && k < |Partitioned(frags, order)|
    ensures Partitioned(frags, order)[k] in order
  {
    SelectedFrom(frags, order, false);
    SelectedFrom(frags, order, true);
    var a, b := Selected(frags, order, false), Selected(frags, order, true);
    if k < |a| { assert a[k] in a; } else { assert b[k - |a|] in b; }
  }

  /** The linked code of accepted tokens. */
  function LinkedCode(lr: Option<Opcode -> bool>, ts: seq<Token>): Code
    requires Compiled(lr, ts).Ok?
  {
    Linked(CodeOf(Compiled(lr, ts).value))
  }

  lemma {:induction false} TargetPlaced(st: State, k: nat)
    requires Invariant(st) && NoRepeats(st.sequence) && k < |Partitioned(st.frags, st.sequence)|
    requires forall id :: 0 <= id < |st.frags| ==> id in st.sequence
    requires forall i :: 0 <= i < |st.sequence| ==> st.sequence[i] < |st.frags|
    ensures Partitioned(st.frags, st.sequence)[k] < |st.frags|
    ensures TargetAt(st.frags, Partitioned(st.frags, st.sequence), k) < |Partitioned(st.frags, st.sequence)|
  {
    hide Partitioned, Counted, ControlOk;
    ComesFrom(st.frags, st.sequence, k);
    var order := Partitioned(st.frags, st.sequence);
    var f := st.frags[order[k]];
    if ShapeOf(f.op).WithTarget? {
      assert TargetOk(st, f);
      ParamNames(st, f);
      StaysPlaced(st.frags, st.sequence, f.param);
      IndexPresent(order, f.param);
    }
  }

  lemma {:induction false} ParamNames(st: State, f: Fragment)
    requires WordsOk(st) && TargetOk(st, f) && ShapeOf(f.op).WithTarget?
    ensures 0 <= f.param < |st.frags|
  {
    if f.op in {DefinedWord, PushOffsetAddress} {
      var k :| 0 <= k < |st.words| && st.words[k] == f.param;
      assert WordOk(st, st.words[k]);
    }
  }

  /** What the compiler hands to the backend is sound: in particular every displacement has a
      placed target. */
  lemma {:induction false} LinkedIsSound(lr: Option<Opcode -> bool>, ts: seq<Token>)
    requires Accepted(lr, ts)
    ensures Sound(LinkedCode(lr, ts).frags, LinkedCode(lr, ts).order)
    ensures forall k :: 0 <= k < |LinkedCode(lr, ts).words| ==> LinkedCode(lr, ts).words[k] < |LinkedCode(lr, ts).frags|
  {
    hide Compiled, Partitioned, Counted, TargetAt;
    AllPlacedOnSuccess(lr, ts);
    CompiledParams(lr, ts);
    var st := Compiled(lr, ts).value;
    var order := Partitioned(st.frags, st.sequence);
    forall k | 0 <= k < |order| ensures order[k] < |st.frags| && TargetAt(st.frags, order, k) < |order| {
      TargetPlaced(st, k);
    }
    forall k | 0 <= k < |st.words| ensures st.words[k] < |st.frags| {
      assert WordOk(st, st.words[k]);
    }
  }

  // ----- the image -----

  /** The relaxations that the loop ends with. */
  ghost predicate Relaxed(c: Code, r: seq<nat>) {
    |r| == |c.order| && Solved(BackendOf(c.frags, c.order), r) && BelowSolved(BackendOf(c.frags, c.order), r)
  }

  ghost predicate FitsImage(image: Image, c: Code, r: seq<nat>) {
    && Sound(c.frags, c.order) && |r| == |c.order|
    && var bytes := CodeBytes(c.frags, c.order, r, |c.order|);
       |bytes| <= |image.code| && image.code[..|bytes|] == bytes
  }

  /** The engine has been given the image of these tokens: the linked code, laid out by the
      relaxation loop, dumped at `org`. */
  ghost predicate Built(vm: Vm, lr: Option<Opcode -> bool>, ts: seq<Token>, r: seq<nat>) {
    && Accepted(lr, ts) && 6 * |LinkedCode(lr, ts).order| < LIMIT
    && Relaxed(LinkedCode(lr, ts), r) && vm.image.org > 0 && FitsImage(vm.image, LinkedCode(lr, ts), r)
  }

  function LayoutOf(vm: Vm, c: Code, r: seq<nat>): Layout {
    Layout(c, r, vm.image.org)
  }

  function Addresses(lay: Layout, n: nat): seq<int> {
    if n == 0 then [] else Addresses(lay, n - 1) + [Address(lay, IndexOf(lay.code.order, n - 1))]
  }

  lemma {:induction false} AddressesAre(lay: Layout, n: nat)
    ensures |Addresses(lay, n)| == n
    ensures forall id :: 0 <= id < n ==> Addresses(lay, n)[id] == Address(lay, IndexOf(lay.code.order, id))
  {
    hide Address, IndexOf;
    if n > 0 { AddressesAre(lay, n - 1); }
  }

  /** The fragment machine with the addresses of this image. */
  function MachineOf(vm: Vm, c: Code, r: seq<nat>): Machine {
    Machine(vm.env, c, Addresses(LayoutOf(vm, c, r), |c.frags|))
  }

  lemma {:induction false} BuiltRuns(vm: Vm, lr: Option<Opcode -> bool>, ts: seq<Token>, r: seq<nat>)
    requires Built(vm, lr, ts, r)
    ensures var c := LinkedCode(lr, ts); SameProgram(vm, MachineOf(vm, c, r), LayoutOf(vm, c, r))
  {
    hide LinkedCode, Compiled, Sound, Solved, BelowSolved, CodeBytes, Address, IndexOf;
    var c := LinkedCode(lr, ts);
    LinkedIsSound(lr, ts);
    SolutionIsLaidOut(c.frags, c.order, r);
    AddressesAre(LayoutOf(vm, c, r), |c.frags|);
    ImageCarries(vm, c, r);
  }

  lemma {:induction false} ImageCarries(vm: Vm, c: Code, r: seq<nat>)
    requires LaidOut(c.frags, c.order, r) && vm.image.org > 0 && FitsImage(vm.image, c, r)
    ensures Carries(vm.image, LayoutOf(vm, c, r))
  {
    hide Sound, Solved, Position;
  }

  // ----- what can be seen -----

  datatype Observation = Halts(ds: seq<int>, w: World) | Fails(code: int, w: World)

  /** How a meaning ends.  An `exit` outside a word would underflow the return stack. */
  function SourceShows(o: Outcome): Option<Observation> {
    match o
    case Ended(l) => Some(Halts(l.ds, l.w))
    case Exited(l) => Some(Fails(STACK_UNDERFLOW, l.w))
    case Failed(code, w) => Some(Fails(code, w))
    case Lost => None
    case Endless => None
  }

  function EngineShows(c: VmConfig): Option<Observation> {
    match c
    case Finished(s) => Some(Halts(s.ds, s.w))
    case Refusal(code, w) => Some(Fails(code, w))
    case Going(_) => None
    case Wild => None
  }

  /** m4_vm_engine_run after the header has been read: empty stacks, pc at the program start. */
  function EngineStart(vm: Vm, w: World): VmConfig {
    Going(VmState(vm.image.org, [], [], 0, w))
  }

  function EngineAfter(vm: Vm, k: nat, w: World): Option<Observation> {
    EngineShows(ByteRun(vm, k, EngineStart(vm, w)))
  }

  /** The meaning of the source with some fuel, the execution tokens being addresses. */
  function MeaningWith(vm: Vm, c: Code, r: seq<nat>, items: seq<Item>, fuel: nat, w: World): Outcome {
    SourceOutcome(MachineOf(vm, c, r), items, fuel, w)
  }

  lemma {:induction false} StartMatches(vm: Vm, c: Code, r: seq<nat>, w: World)
    requires SameProgram(vm, MachineOf(vm, c, r), LayoutOf(vm, c, r))
    ensures Matches(LayoutOf(vm, c, r), Start(w), EngineStart(vm, w))
  {
    hide Solved, Sound, CodeBytes;
    FirstPosition(BackendOf(c.frags, c.order), r);
  }

  lemma {:induction false} SourcePlaced(lr: Option<Opcode -> bool>, ts: seq<Token>, items: seq<Item>, m: Machine)
    requires SourceWellFormed(items) && ts == SourceText(items, []) && Compiled(lr, ts).Ok?
    requires m.code == LinkedCode(lr, ts)
    ensures ProgramPlaced(m.code, items) && PlainSource(items)
  {
    hide SourceWellFormed, SourceText, Compiled, Invariant, ProgramPlaced, AllPlaced, Linked;
    StructuredIsAccepted(lr, items);
    AllPlacedOnSuccess(lr, ts);
    LinkingPlaces(CodeOf(Compiled(lr, ts).value), items);
    SourceIsPlain(items);
  }

  lemma {:induction false} SameShown(lay: Layout, o: Outcome, c: VmConfig)
    requires !o.Endless? && o != Lost && Matches(lay, Final(o), c)
    ensures EngineShows(c) == SourceShows(o)
  {
    hide StateOf;
  }

  /** What the source means, the engine does. */
  lemma {:induction false} MeaningIsRun(vm: Vm, lr: Option<Opcode -> bool>, ts: seq<Token>, r: seq<nat>,
      items: seq<Item>, fuel: nat, w: World)
    returns (k: nat)
    requires Built(vm, lr, ts, r) && SourceWellFormed(items) && ts == SourceText(items, [])
    requires SourceShows(MeaningWith(vm, LinkedCode(lr, ts), r, items, fuel, w)).Some?
    ensures EngineAfter(vm, k, w) == SourceShows(MeaningWith(vm, LinkedCode(lr, ts), r, items, fuel, w))
  {
    hide SourceText, SourceWellFormed, LinkedCode, Matches, SameProgram, ByteRun, Run, SourceOutcome, ProgramPlaced,
        PlainSource, EngineShows, Start;
    var c := LinkedCode(lr, ts);
    var m, o := MachineOf(vm, c, r), MeaningWith(vm, c, r, items, fuel, w);
    BuiltRuns(vm, lr, ts, r);
    SourcePlaced(lr, ts, items, m);
    k := RunsSource(m, items, fuel, w);
    StartMatches(vm, c, r, w);
    FinalStops(o);
    BytesStop(vm, m, LayoutOf(vm, c, r), k, Start(w), EngineStart(vm, w));
    SameShown(LayoutOf(vm, c, r), o, ByteRun(vm, k, EngineStart(vm, w)));
  }

  lemma {:induction false} ShownHasStopped(c: VmConfig)
    requires EngineShows(c).Some?
    ensures !c.Going? && c != Wild
  {
  }

  /** The source never leaves the model: no word reads or pops return cells that are not its own,
      and `execute` is only given execution tokens. */
  ghost predicate StaysInside(vm: Vm, c: Code, r: seq<nat>, items: seq<Item>, w: World) {
    forall fuel: nat :: !MeaningWith(vm, c, r, items, fuel, w).Lost?
  }

  lemma {:induction false} FuelFor(vm: Vm, lr: Option<Opcode -> bool>, ts: seq<Token>, r: seq<nat>, items: seq<Item>,
      n: nat, w: World)
    returns (fuel: nat)
    requires Built(vm, lr, ts, r) && SourceWellFormed(items) && ts == SourceText(items, [])
    requires !Run(MachineOf(vm, LinkedCode(lr, ts), r), n, Start(w)).Running?
    ensures var o := MeaningWith(vm, LinkedCode(lr, ts), r, items, fuel, w);
      !o.Endless? && Run(MachineOf(vm, LinkedCode(lr, ts), r), n, Start(w)) == Final(o)
  {
    hide SourceText, SourceWellFormed, LinkedCode, Run, SourceOutcome, ProgramPlaced, PlainSource, Start, Final,
        Built, Addresses;
    BuiltAccepts(vm, lr, ts, r);
    var m := MachineOf(vm, LinkedCode(lr, ts), r);
    SourcePlaced(lr, ts, items, m);
    var stop := Run(m, n, Start(w));
    StopsExactlyAsMeant(m, items, w, stop);
    fuel :| Means(SourceOutcome(m, items, fuel, w), stop);
  }

  lemma {:induction false} BuiltAccepts(vm: Vm, lr: Option<Opcode -> bool>, ts: seq<Token>, r: seq<nat>)
    requires Built(vm, lr, ts, r)
    ensures Compiled(lr, ts).Ok?
  {
    hide Compiled;
  }

  /** What the engine does, the source means. */
  lemma {:induction false} RunIsMeaning(vm: Vm, lr: Option<Opcode -> bool>, ts: seq<Token>, r: seq<nat>,
      items: seq<Item>, k: nat, w: World)
    returns (fuel: nat)
    requires Built(vm, lr, ts, r) && SourceWellFormed(items) && ts == SourceText(items, [])
    requires StaysInside(vm, LinkedCode(lr, ts), r, items, w) && EngineAfter(vm, k, w).Some?
    ensures SourceShows(MeaningWith(vm, LinkedCode(lr, ts), r, items, fuel, w)) == EngineAfter(vm, k, w)
  {
    hide SourceText, SourceWellFormed, LinkedCode, Matches, SameProgram, ByteRun, Run, SourceOutcome, EngineShows,
        SourceShows, Start, Built, Addresses;
    BuiltAccepts(vm, lr, ts, r);
    var c := LinkedCode(lr, ts);
    var m, lay := MachineOf(vm, c, r), LayoutOf(vm, c, r);
    BuiltRuns(vm, lr, ts, r);
    StartMatches(vm, c, r, w);
    ShownHasStopped(ByteRun(vm, k, EngineStart(vm, w)));
    var n := FragmentsStop(vm, m, lay, k, Start(w), EngineStart(vm, w));
    fuel := FuelFor(vm, lr, ts, r, items, n, w);
    assert !MeaningWith(vm, c, r, items, fuel, w).Lost?;
    SameShown(lay, MeaningWith(vm, c, r, items, fuel, w), ByteRun(vm, k, EngineStart(vm, w)));
  }

  /** The whole pipeline preserves meaning.  For every accepted token sequence and every source
      with that text, the engine run on the image ends with an observation if and only if the
      source means it; so it also runs for ever exactly when the source does. */
  lemma {:induction false} PipelinePreservesMeaning(vm: Vm, lr: Option<Opcode -> bool>, ts: seq<Token>, r: seq<nat>,
      items: seq<Item>, w: World, seen: Observation)
    requires Built(vm, lr, ts, r) && SourceWellFormed(items) && ts == SourceText(items, [])
    requires StaysInside(vm, LinkedCode(lr, ts), r, items, w)
    ensures (exists k: nat :: EngineAfter(vm, k, w) == Some(seen))
       <==> (exists fuel: nat :: SourceShows(MeaningWith(vm, LinkedCode(lr, ts), r, items, fuel, w)) == Some(seen))
  {
    hide Built, SourceWellFormed, SourceText, LinkedCode, StaysInside, EngineAfter, SourceShows, MeaningWith;
    BuiltAccepts(vm, lr, ts, r);
    if k: nat :| EngineAfter(vm, k, w) == Some(seen) {
      var fuel := RunIsMeaning(vm, lr, ts, r, items, k, w);
    }
    if fuel: nat :| SourceShows(MeaningWith(vm, LinkedCode(lr, ts), r, items, fuel, w)) == Some(seen) {
      var k := MeaningIsRun(vm, lr, ts, r, items, fuel, w);
    }
  }
}
