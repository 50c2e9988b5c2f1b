/** What every token keeps: fragments are neither lost nor placed twice, pending locations are
    exactly the IF, ELSE and WHILE entries, and every branch refers to a location that is placed
    or still pending. */
module Conservation {
  import opened Common
  import opened Fragments
  import opened FrontEnd

  predicate IsPending(kind: ControlKind) {
    kind.CfIf? || kind.CfElse? || kind.CfWhile?
  }

  /** The locations that a terminator has still to place. */
  function PendingIds(cf: seq<ControlFlow>): seq<nat> {
    if cf == [] then []
    else
      var last := cf[|cf| - 1];
      PendingIds(cf[..|cf| - 1]) + if IsPending(last.kind) then [last.fragment] else []
  }

  ghost predicate IsLocation(st: State, id: int) {
    0 <= id < |st.frags| && st.frags[id].op == BranchLocation
  }

  /** A control-flow entry names a location, and a loop entry one that is placed already. */
  ghost predicate EntryOk(st: State, e: ControlFlow) {
    IsLocation(st, e.fragment) && (!IsPending(e.kind) ==> e.fragment in st.sequence)
  }

  ghost predicate ControlOk(st: State) {
    && (forall i :: 0 <= i < |st.cf| ==> EntryOk(st, st.cf[i]))
    && (forall i :: 0 <= i < |st.cf| && st.cf[i].kind.CfWhile? ==> i > 0 && st.cf[i - 1].kind.CfBegin?)
  }

  /** The fragment number of a word location is its place in the sequence as well. */
  ghost predicate WordOk(st: State, w: nat) {
    && w < |st.frags| && st.frags[w].op == DefinedWordLocation
    && w < |st.sequence| && st.sequence[w] == w
  }

  ghost predicate WordsOk(st: State) {
    && (st.defining ==> st.words != [])
    && (forall k :: 0 <= k < |st.words| ==> WordOk(st, st.words[k]))
    && (forall j, k :: 0 <= j < k < |st.words| ==> st.words[j] < st.words[k])
  }

  ghost predicate TargetOk(st: State, f: Fragment) {
    && (f.op in {BranchIfZero, Branch, Loop} ==> IsLocation(st, f.param))
    && (f.op in {DefinedWord, PushOffsetAddress, ExitWord} ==> f.param in st.words)
  }

  ghost predicate TargetsOk(st: State) {
    forall i :: 0 <= i < |st.frags| ==> TargetOk(st, st.frags[i])
  }

  /** s lists 0 .. n-1 in some order, each once. */
  ghost predicate Counted(n: nat, s: seq<int>) {
    && |s| == n
    && (forall i :: 0 <= i < |s| ==> 0 <= s[i] < n)
    && (forall i, j :: 0 <= i < j < |s| ==> s[i] != s[j])
    && (forall id :: 0 <= id < n ==> id in s)
  }

  /** The invariant between two building steps, when `loose` fragments have been created that
      are neither placed nor on the control-flow stack. */
  ghost predicate Between(st: State, loose: seq<int>) {
    && Counted(|st.frags|, st.sequence + PendingIds(st.cf) + loose)
    && ControlOk(st) && WordsOk(st) && TargetsOk(st)
  }

  /** What holds after every token: each fragment is placed once or pending once, and every
      reference is sound. */
  ghost predicate Invariant(st: State) {
    Between(st, [])
  }

  // ----- counting -----

  lemma {:induction false} CountedGrows(n: nat, s: seq<int>)
    requires Counted(n, s)
    ensures Counted(n + 1, s + [n])
  {
    forall id | 0 <= id < n + 1 ensures id in s + [n] {
      if id == n { assert (s + [n])[n] == n; }
    }
  }

  lemma {:induction false} CountedMoves(n: nat, a: seq<int>, b: seq<int>, x: int, c: seq<int>)
    requires Counted(n, a + b + ([x] + c))
    ensures Counted(n, a + [x] + b + c)
  {
    var s, t := a + b + ([x] + c), a + [x] + b + c;
    forall i | 0 <= i < n ensures t[i] == s[Source(|a|, |b|, i)] { }
    forall id | 0 <= id < n ensures id in t {
      assert id in s;
      var k :| 0 <= k < |s| && s[k] == id;
      assert t[if k < |a| then k else if k == |a| + |b| then |a| else if k < |a| + |b| then k + 1 else k] == id;
    }
  }

  /** Where the element at i was before one element moved from |a| + |b| down to |a|. */
  function Source(a: nat, b: nat, i: nat): nat
  {
    if i < a then i else if i == a then a + b else if i <= a + b then i - 1 else i
  }

  lemma {:induction false} CountedTurns(n: nat, a: seq<int>, x: int, c: seq<int>)
    requires Counted(n, a + (c + [x]))
    ensures Counted(n, a + ([x] + c))
  {
    assert a + (c + [x]) == a + c + ([x] + []);
    assert a + ([x] + c) == a + [x] + c + [];
    CountedMoves(n, a, c, x, []);
  }

  /** The number of fragments is the number placed plus the pending entries, with no repeats. */
  lemma {:induction false} PlacedPlusPending(st: State)
    requires Invariant(st)
    ensures |st.frags| == |st.sequence| + |PendingIds(st.cf)|
    ensures NoRepeats(st.sequence) && forall i :: 0 <= i < |st.sequence| ==> st.sequence[i] < |st.frags|
  {
    var all := st.sequence + PendingIds(st.cf);
    assert all + [] == all;
    forall i, j | 0 <= i < j < |st.sequence| ensures st.sequence[i] != st.sequence[j] {
      assert all[i] != all[j];
    }
    forall i | 0 <= i < |st.sequence| ensures st.sequence[i] < |st.frags| {
      assert all[i] == st.sequence[i];
    }
  }

  // ----- preservation -----

  lemma {:induction false} CreateKeeps(st: State, op: Opcode, param: int, loose: seq<int>)
    requires Between(st, loose)
    requires op in {BranchIfZero, Branch, Loop} ==> IsLocation(st, param)
    requires op in {DefinedWord, PushOffsetAddress, ExitWord} ==> param in st.words
    ensures Between(Create(st, op, param), loose + [|st.frags|])
  {
    var s1 := Create(st, op, param);
    var n := |st.frags|;
    assert s1.sequence + PendingIds(s1.cf) + (loose + [n]) == (st.sequence + PendingIds(st.cf) + loose) + [n];
    CountedGrows(n, st.sequence + PendingIds(st.cf) + loose);
    hide Counted;
    Extended(st, s1);
  }

  /** Growing the arrays and keeping the stack and the dictionary. */
  lemma {:induction false} Extended(st: State, s1: State)
    requires ControlOk(st) && WordsOk(st) && TargetsOk(st)
    requires st.sequence <= s1.sequence && st.cf == s1.cf && st.words == s1.words && st.defining == s1.defining
    requires |st.frags| <= |s1.frags|
    requires forall i :: 0 <= i < |st.frags| ==>
        st.frags[i].op == s1.frags[i].op && st.frags[i].param == s1.frags[i].param
    requires forall i :: |st.frags| <= i < |s1.frags| ==> TargetOk(st, s1.frags[i])
    ensures ControlOk(s1) && WordsOk(s1) && TargetsOk(s1)
  {
    forall i | 0 <= i < |st.cf| ensures EntryOk(s1, s1.cf[i]) {
      assert EntryOk(st, st.cf[i]);
    }
    forall k | 0 <= k < |st.words| ensures WordOk(s1, s1.words[k]) {
      assert WordOk(st, st.words[k]);
    }
    forall i | 0 <= i < |s1.frags| ensures TargetOk(s1, s1.frags[i]) {
      if i < |st.frags| { assert TargetOk(st, st.frags[i]); } else { assert TargetOk(st, s1.frags[i]); }
    }
  }

  lemma {:induction false} PlaceKeeps(st: State, id: nat, loose: seq<int>)
    requires Between(st, [id] + loose)
    ensures Between(Place(st, id), loose)
  {
    var s1 := Place(st, id);
    CountedMoves(|st.frags|, st.sequence, PendingIds(st.cf), id, loose);
    hide Counted;
    Extended(st, s1);
  }

  lemma {:induction false} EmitKeeps(st: State, op: Opcode, param: int, loose: seq<int>)
    requires Between(st, loose)
    requires op in {BranchIfZero, Branch, Loop} ==> IsLocation(st, param)
    requires op in {DefinedWord, PushOffsetAddress, ExitWord} ==> param in st.words
    ensures Between(Emit(st, op, param), loose)
  {
    var n := |st.frags|;
    CreateKeeps(st, op, param, loose);
    var s1 := Create(st, op, param);
    assert Between(s1, [n] + loose) by {
      CountedTurns(|s1.frags|, s1.sequence + PendingIds(s1.cf), n, loose);
      hide Counted, ControlOk, WordsOk, TargetsOk;
    }
    hide Between;
    PlaceKeeps(s1, n, loose);
  }

  lemma {:induction false} PushKeeps(st: State, kind: ControlKind, id: nat, loose: seq<int>)
    requires Between(st, (if IsPending(kind) then [id] else []) + loose) && IsLocation(st, id)
    requires !IsPending(kind) ==> id in st.sequence
    requires kind.CfWhile? ==> st.cf != [] && Top(st).kind.CfBegin?
    ensures Between(PushCf(st, kind, id), loose)
  {
    hide Counted, WordsOk, TargetsOk, ControlOk, PendingIds, IsLocation;
    var s1 := PushCf(st, kind, id);
    PendingIdsPush(st.cf, ControlFlow(kind, id));
    assert st.sequence + (PendingIds(st.cf) + if IsPending(kind) then [id] else []) + loose
        == st.sequence + PendingIds(st.cf) + ((if IsPending(kind) then [id] else []) + loose);
    PushControl(st, kind, id);
    Same(st, s1);
  }

  lemma {:induction false} PendingIdsPush(cf: seq<ControlFlow>, e: ControlFlow)
    ensures PendingIds(cf + [e]) == PendingIds(cf) + if IsPending(e.kind) then [e.fragment] else []
  {
    assert (cf + [e])[..|cf|] == cf;
  }

  lemma {:induction false} PushControl(st: State, kind: ControlKind, id: nat)
    requires ControlOk(st) && IsLocation(st, id) && (!IsPending(kind) ==> id in st.sequence)
    requires kind.CfWhile? ==> st.cf != [] && Top(st).kind.CfBegin?
    ensures ControlOk(PushCf(st, kind, id))
  {
    var s1 := PushCf(st, kind, id);
    forall i | 0 <= i < |s1.cf| ensures EntryOk(s1, s1.cf[i]) {
      if i < |st.cf| { assert EntryOk(st, st.cf[i]); }
    }
  }

  lemma {:induction false} PopKeeps(st: State, loose: seq<int>)
    requires Between(st, loose) && st.cf != []
    ensures Between(PopCf(st), (if IsPending(Top(st).kind) then [Top(st).fragment] else []) + loose)
    ensures IsLocation(st, Top(st).fragment)
  {
    hide Counted, WordsOk, TargetsOk;
    var s1 := PopCf(st);
    assert EntryOk(st, st.cf[|st.cf| - 1]);
    assert st.sequence + PendingIds(st.cf) + loose
        == st.sequence + PendingIds(s1.cf) + ((if IsPending(Top(st).kind) then [Top(st).fragment] else []) + loose);
    forall i | 0 <= i < |s1.cf| ensures EntryOk(s1, s1.cf[i]) {
      assert EntryOk(st, st.cf[i]);
    }
    Same(st, s1);
  }

  lemma {:induction false} Same(st: State, s1: State)
    requires WordsOk(st) && TargetsOk(st)
    requires s1.frags == st.frags && s1.sequence == st.sequence && s1.words == st.words && s1.defining == st.defining
    ensures WordsOk(s1) && TargetsOk(s1)
  {
    forall k | 0 <= k < |st.words| ensures WordOk(s1, s1.words[k]) {
      assert WordOk(st, st.words[k]);
    }
    forall i | 0 <= i < |s1.frags| ensures TargetOk(s1, s1.frags[i]) {
      assert TargetOk(st, st.frags[i]);
    }
  }

  /** Setting a flag of the current word location disturbs nothing. */
  lemma {:induction false} UpdateCallsKeeps(lr: Option<Opcode -> bool>, st: State)
    requires Invariant(st) && st.words != []
    ensures WordOk(st, Current(st)) && Invariant(UpdateCalls(lr, st))
  {
    hide Counted, PendingIds, ScanBack;
    assert WordOk(st, st.words[|st.words| - 1]);
    Extended(st, UpdateCalls(lr, st));
  }

  lemma {:induction false} MarkLoopsKeeps(st: State)
    requires Invariant(st) && st.words != []
    ensures WordOk(st, Current(st)) && Invariant(MarkLoops(st))
  {
    hide Counted, PendingIds, ScanBack;
    assert WordOk(st, st.words[|st.words| - 1]);
    Extended(st, MarkLoops(st));
  }

  lemma {:induction false} EndKeeps(st: State)
    requires Invariant(st)
    ensures Invariant(st.(defining := false))
  {
    var s1 := st.(defining := false);
    forall i | 0 <= i < |s1.cf| ensures EntryOk(s1, s1.cf[i]) {
      assert EntryOk(st, st.cf[i]);
    }
    forall k | 0 <= k < |st.words| ensures WordOk(s1, s1.words[k]) {
      assert WordOk(st, st.words[k]);
    }
    forall i | 0 <= i < |s1.frags| ensures TargetOk(s1, s1.frags[i]) {
      assert TargetOk(st, st.frags[i]);
    }
  }

  lemma {:induction false} ColonKeeps(st: State)
    requires Invariant(st) && st.cf == []
    ensures Invariant(Emit(st.(defining := true), DefinedWordLocation, 0).(words := st.words + [|st.frags|]))
  {
    var n := |st.frags|;
    var s1 := Emit(st.(defining := true), DefinedWordLocation, 0).(words := st.words + [n]);
    PlacedPlusPending(st);
    assert s1.sequence + PendingIds([]) + [] == (st.sequence + PendingIds([]) + []) + [n];
    CountedGrows(n, st.sequence + PendingIds([]) + []);
    hide Counted;
    assert TargetsOk(s1) by {
      forall i | 0 <= i < |s1.frags| ensures TargetOk(s1, s1.frags[i]) {
        if i < n { assert TargetOk(st, st.frags[i]); }
      }
    }
    hide TargetsOk;
    forall k | 0 <= k < |s1.words| ensures WordOk(s1, s1.words[k]) && (k < |st.words| ==> s1.words[k] < n) {
      if k < |st.words| { assert WordOk(st, st.words[k]); }
    }
  }

  /** IF and WHILE: a forward branch whose location stays pending. */
  lemma {:induction false} ForwardKeeps(st: State, kind: ControlKind)
    requires Invariant(st) && (kind.CfIf? || (kind.CfWhile? && st.cf != [] && Top(st).kind.CfBegin?))
    ensures var loc := |st.frags|;
      Invariant(PushCf(Emit(Create(st, BranchLocation, -1), BranchIfZero, loc), kind, loc))
  {
    hide Between;
    var loc := |st.frags|;
    CreateKeeps(st, BranchLocation, -1, []);
    var s1 := Create(st, BranchLocation, -1);
    assert [] + [loc] == [loc] && [loc] + [] == [loc];
    EmitKeeps(s1, BranchIfZero, loc, [loc]);
    PushKeeps(Emit(s1, BranchIfZero, loc), kind, loc, []);
  }

  lemma {:induction false} ElseKeeps(st: State)
    requires Invariant(st) && st.cf != [] && Top(st).kind.CfIf?
    ensures var loc := |st.frags|;
      Invariant(PushCf(PopCf(Place(Emit(Create(st, BranchLocation, -1), Branch, loc), Top(st).fragment)), CfElse, loc))
  {
    hide Between;
    var loc, x := |st.frags|, Top(st).fragment;
    PopKeeps(st, []);
    var p := PopCf(st);
    assert [x] + [] == [x] && [loc] + [] == [loc];
    CreateKeeps(p, BranchLocation, -1, [x]);
    var s1 := Create(p, BranchLocation, -1);
    EmitKeeps(s1, Branch, loc, [x] + [loc]);
    PlaceKeeps(Emit(s1, Branch, loc), x, [loc]);
    PushKeeps(Place(Emit(s1, Branch, loc), x), CfElse, loc, []);
  }

  lemma {:induction false} ThenKeeps(st: State)
    requires Invariant(st) && st.cf != [] && IsPending(Top(st).kind)
    ensures Invariant(PopCf(Place(st, Top(st).fragment)))
  {
    hide Between;
    PopKeeps(st, []);
    PlaceKeeps(PopCf(st), Top(st).fragment, []);
  }

  lemma {:induction false} BeginKeeps(st: State, kind: ControlKind)
    requires Invariant(st) && (kind.CfBegin? || kind.CfDo?)
    ensures Invariant(PushCf(Emit(st, BranchLocation, -1), kind, |st.frags|))
  {
    hide Between;
    EmitKeeps(st, BranchLocation, -1, []);
    var none: seq<int> := [];
    assert none + none == none;
    PushKeeps(Emit(st, BranchLocation, -1), kind, |st.frags|, []);
  }

  /** UNTIL, AGAIN and LOOP: a branch back to a location already placed. */
  lemma {:induction false} BackwardKeeps(st: State, op: Opcode)
    requires Invariant(st) && st.cf != [] && !IsPending(Top(st).kind) && op in {BranchIfZero, Branch, Loop}
    ensures Invariant(PopCf(Emit(st, op, Top(st).fragment)))
  {
    hide Between;
    PopKeeps(st, []);
    var none: seq<int> := [];
    assert none + none == none;
    EmitKeeps(PopCf(st), op, Top(st).fragment, []);
  }

  lemma {:induction false} BackwardKeepsLoose(p: State, x: nat)
    requires Between(p, [x] + []) && p.cf != [] && !IsPending(Top(p).kind)
    ensures Between(PopCf(Emit(p, Branch, Top(p).fragment)), [x] + [])
  {
    hide Between;
    assert [x] + [] == [x] && [] + [x] == [x];
    PopKeeps(p, [x]);
    EmitKeeps(PopCf(p), Branch, Top(p).fragment, [x]);
  }

  lemma {:induction false} RepeatKeeps(st: State)
    requires Invariant(st) && |st.cf| > 1 && Top(st).kind.CfWhile? && st.cf[|st.cf| - 2].kind.CfBegin?
    ensures Invariant(PopCf(PopCf(Place(Emit(st, Branch, st.cf[|st.cf| - 2].fragment), Top(st).fragment))))
  {
    hide Between;
    var x := Top(st).fragment;
    PopKeeps(st, []);
    var p := PopCf(st);
    assert Top(p) == st.cf[|st.cf| - 2];
    BackwardKeepsLoose(p, x);
    PlaceKeeps(PopCf(Emit(p, Branch, Top(p).fragment)), x, []);
  }

  lemma {:induction false} ExitKeeps(lr: Option<Opcode -> bool>, st: State)
    requires Invariant(st) && st.words != []
    ensures var s1 := Emit(st, ExitWord, Current(st));
      && Current(s1) < |s1.frags| && Invariant(UpdateCalls(lr, s1))
      && Current(MarkLoops(s1)) < |s1.frags| && Invariant(UpdateCalls(lr, MarkLoops(s1)))
  {
    var s1 := Emit(st, ExitWord, Current(st));
    hide Between;
    EmitKeeps(st, ExitWord, Current(st), []);
    MarkLoopsKeeps(s1);
    UpdateCallsKeeps(lr, s1);
    UpdateCallsKeeps(lr, MarkLoops(s1));
  }

  /** The last two checks of `repeat` never fail: a WHILE entry always sits directly on a BEGIN. */
  lemma {:induction false} RepeatChecksNeverFail(lr: Option<Opcode -> bool>, st: State)
    requires Invariant(st) && st.cf != [] && Top(st).kind.CfWhile?
    ensures |st.cf| > 1 && st.cf[|st.cf| - 2].kind.CfBegin? && StepToken(lr, st, Repeat).Ok?
  {
    hide Counted, EntryOk, WordsOk, TargetsOk;
    assert st.cf[|st.cf| - 1].kind.CfWhile?;
  }

  /** Every accepted token keeps the invariant. */
  lemma {:induction false} StepKeepsInvariant(lr: Option<Opcode -> bool>, st: State, t: Token)
    requires Invariant(st) && StepToken(lr, st, t).Ok?
    ensures Invariant(StepToken(lr, st, t).value)
  {
    hide Invariant;
    match t
    case Plain(op, param) => EmitInvariant(st, op, param);
    case CallWord(k) => EmitInvariant(st, DefinedWord, st.words[k]);
    case Tick(k) => EmitInvariant(st, PushOffsetAddress, st.words[k]);
    case Recurse => EmitInvariant(st, DefinedWord, Current(st));
    case Unloop =>
    case Colon => ColonKeeps(st);
    case Semicolon =>
      ExitKeeps(lr, st);
      EndKeeps(UpdateCalls(lr, Emit(st, ExitWord, Current(st))));
    case Exit => ExitKeeps(lr, st);
    case If => ForwardKeeps(st, CfIf);
    case Then => ThenKeeps(st);
    case Else => ElseKeeps(st);
    case DoWord =>
      EmitInvariant(st, Do, -1);
      BeginKeeps(Emit(st, Do, -1), CfDo);
    case LoopWord => BackwardKeeps(st, Loop);
    case Begin => BeginKeeps(st, CfBegin);
    case Until => BackwardKeeps(st, BranchIfZero);
    case While => ForwardKeeps(st, CfWhile);
    case Repeat => RepeatKeeps(st);
    case Again => BackwardKeeps(st, Branch);
  }

  lemma {:induction false} EmitInvariant(st: State, op: Opcode, param: int)
    requires Invariant(st) && op !in {BranchIfZero, Branch, Loop}
    requires op in {DefinedWord, PushOffsetAddress, ExitWord} ==> param in st.words
    ensures Invariant(Emit(st, op, param))
  {
    EmitKeeps(st, op, param, []);
  }

  lemma {:induction false} CountedOne()
    ensures Counted(1, [0])
  {
    assert [0][0] == 0;
  }

  /** Before the first word there is nothing to refer to. */
  lemma {:induction false} NoWords(st: State)
    requires st.words == [] && !st.defining && forall i :: 0 <= i < |st.frags| ==> st.frags[i].op == Entry
    ensures WordsOk(st) && TargetsOk(st)
  {
  }

  lemma {:induction false} InitialInvariant()
    ensures Invariant(InitialState())
  {
    hide Counted, WordsOk, TargetsOk;
    var st := InitialState();
    assert st.sequence == [0] && st.frags == [Fragment(Entry, 0, false, false, false)];
    assert st.sequence + PendingIds([]) + [] == [0];
    CountedOne();
    assert st.words == [] && !st.defining;
    NoWords(st);
  }

  /** Every state that the token loop reaches satisfies the invariant. */
  lemma {:induction false} RunKeepsInvariant(lr: Option<Opcode -> bool>, st: State, ts: seq<Token>)
    requires Invariant(st) && RunTokens(lr, st, ts).Ok?
    ensures Invariant(RunTokens(lr, st, ts).value)
    decreases |ts|
  {
    if ts != [] {
      StepKeepsInvariant(lr, st, ts[0]);
      RunKeepsInvariant(lr, StepToken(lr, st, ts[0]).value, ts[1..]);
    }
  }

  /** At the end every fragment is placed exactly once, and every branch, call and word address
      refers to a fragment of the right kind that has a place. */
  lemma {:induction false} AllPlacedOnSuccess(lr: Option<Opcode -> bool>, ts: seq<Token>)
    requires Compiled(lr, ts).Ok?
    ensures var st := Compiled(lr, ts).value;
      && |st.sequence| == |st.frags|
      && NoRepeats(st.sequence)
      && (forall id :: 0 <= id < |st.frags| ==> id in st.sequence)
      && (forall i :: 0 <= i < |st.sequence| ==> st.sequence[i] < |st.frags|)
      && Invariant(st)
  {
    InitialInvariant();
    RunKeepsInvariant(lr, InitialState(), ts);
    var s0 := RunTokens(lr, InitialState(), ts).value;
    EmitInvariant(s0, Halt, -1);
    var st := Emit(s0, Halt, -1);
    assert st.sequence + PendingIds(st.cf) + [] == st.sequence;
  }
}
