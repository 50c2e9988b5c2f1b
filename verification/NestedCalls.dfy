/** The CALLS flag of a word (compile.c:339-357, 532-552, esp32s3_backend.c:1057-1069): the scans at
    every `exit` and at `;`, each going back only to the exit before, together see the whole body. */
module NestedCalls {
  import opened Common
  import opened Fragments
  import opened FrontEnd
  import opened Conservation

  /** The operations that overwrite the link register on the ESP32-S3. */
  predicate OpUsesLr(op: Opcode) {
    op in {DefinedWord, RuntimeWord, Execute, ThreadCreate, ThreadJoin}
  }

  function OpAt(frags: seq<Fragment>, sequence: seq<nat>, k: nat): Opcode {
    if k < |sequence| && sequence[k] < |frags| then frags[sequence[k]].op else ExitWord
  }

  /** A full scan: some place strictly between lo and hi holds an operation, other than an exit,
      that uses the link register. */
  ghost predicate UsesLink(usesLr: Opcode -> bool, frags: seq<Fragment>, sequence: seq<nat>, lo: nat, hi: nat) {
    exists k :: lo < k < hi && OpAt(frags, sequence, k) != ExitWord && usesLr(OpAt(frags, sequence, k))
  }

  /** The last exit after lo and before hi; lo itself when there is none. */
  function LastExit(frags: seq<Fragment>, sequence: seq<nat>, lo: nat, hi: nat): nat {
    if hi <= lo + 1 then lo
    else if OpAt(frags, sequence, hi - 1) == ExitWord then hi - 1
    else LastExit(frags, sequence, lo, hi - 1)
  }

  lemma {:induction false} LastExitIs(frags: seq<Fragment>, sequence: seq<nat>, lo: nat, hi: nat)
    requires lo < hi
    ensures var e := LastExit(frags, sequence, lo, hi);
      && lo <= e < hi && (e > lo ==> OpAt(frags, sequence, e) == ExitWord)
      && forall k :: e < k < hi ==> OpAt(frags, sequence, k) != ExitWord
  {
    hide OpAt;
    if hi > lo + 1 && OpAt(frags, sequence, hi - 1) != ExitWord { LastExitIs(frags, sequence, lo, hi - 1); }
  }

  /** The backward scan from i sees exactly what lies behind the last exit. */
  lemma {:induction false} ScanSeesTail(usesLr: Opcode -> bool, frags: seq<Fragment>, sequence: seq<nat>, d: nat,
      i: nat)
    requires d <= i < |sequence| && forall k :: 0 <= k < |sequence| ==> sequence[k] < |frags|
    ensures ScanBack(usesLr, frags, sequence, d, i)
        == UsesLink(usesLr, frags, sequence, LastExit(frags, sequence, d, i + 1), i + 1)
  {
    if i > d && OpAt(frags, sequence, i) != ExitWord {
      ScanSeesTail(usesLr, frags, sequence, d, i - 1);
      LastExitIs(frags, sequence, d, i);
      var e := LastExit(frags, sequence, d, i);
      OneMore(usesLr, frags, sequence, e, i);
    }
  }

  lemma {:induction false} OneMore(usesLr: Opcode -> bool, frags: seq<Fragment>, sequence: seq<nat>, lo: nat, i: nat)
    requires lo < i
    ensures UsesLink(usesLr, frags, sequence, lo, i + 1)
         == (UsesLink(usesLr, frags, sequence, lo, i) || (OpAt(frags, sequence, i) != ExitWord
             && usesLr(OpAt(frags, sequence, i))))
  {
    hide OpAt;
  }

  /** An exit in between does not count. */
  lemma {:induction false} Joins(usesLr: Opcode -> bool, frags: seq<Fragment>, sequence: seq<nat>, lo: nat, e: nat,
      hi: nat)
    requires lo <= e < hi && (e > lo ==> OpAt(frags, sequence, e) == ExitWord)
    ensures UsesLink(usesLr, frags, sequence, lo, hi)
         == (UsesLink(usesLr, frags, sequence, lo, e) || UsesLink(usesLr, frags, sequence, e, hi))
  {
    hide OpAt;
    if UsesLink(usesLr, frags, sequence, lo, hi) {
      var k :| lo < k < hi && OpAt(frags, sequence, k) != ExitWord && usesLr(OpAt(frags, sequence, k));
      assert k != e;
    }
  }

  // ----- what is kept between exits -----

  /** While a word is being defined its flag is exact up to its last exit. */
  ghost predicate FlagUpToDate(lr: Option<Opcode -> bool>, st: State) {
    lr.Some? && st.defining ==>
      && st.words != [] && Current(st) < |st.frags| && Current(st) < |st.sequence|
      && var d := Current(st);
         st.frags[d].calls == UsesLink(lr.value, st.frags, st.sequence, d,
             LastExit(st.frags, st.sequence, d, |st.sequence|))
  }

  /** Only fragments that are no exits have been added. */
  ghost predicate Quiet(st: State, s1: State) {
    && |st.frags| <= |s1.frags| && (forall i :: 0 <= i < |st.frags| ==> s1.frags[i] == st.frags[i])
    && st.sequence <= s1.sequence
    && (forall k :: |st.sequence| <= k < |s1.sequence| ==> OpAt(s1.frags, s1.sequence, k) != ExitWord)
    && s1.words == st.words && s1.defining == st.defining
  }

  ghost predicate Placed(st: State) {
    forall k :: 0 <= k < |st.sequence| ==> st.sequence[k] < |st.frags|
  }

  lemma {:induction false} SameOps(st: State, s1: State, lo: nat, hi: nat)
    requires Quiet(st, s1) && Placed(st) && hi <= |st.sequence|
    ensures forall k :: lo <= k < hi ==> OpAt(st.frags, st.sequence, k) == OpAt(s1.frags, s1.sequence, k)
    ensures LastExit(st.frags, st.sequence, lo, hi) == LastExit(s1.frags, s1.sequence, lo, hi)
  {
    if hi > lo + 1 { SameOps(st, s1, lo, hi - 1); }
  }

  lemma {:induction false} NoExitSince(frags: seq<Fragment>, sequence: seq<nat>, lo: nat, mid: nat, hi: nat)
    requires lo < mid <= hi && forall k :: mid <= k < hi ==> OpAt(frags, sequence, k) != ExitWord
    ensures LastExit(frags, sequence, lo, hi) == LastExit(frags, sequence, lo, mid)
  {
    hide OpAt;
    if mid < hi { NoExitSince(frags, sequence, lo, mid, hi - 1); }
  }

  lemma {:induction false} QuietKeeps(lr: Option<Opcode -> bool>, st: State, s1: State)
    requires FlagUpToDate(lr, st) && Quiet(st, s1) && Placed(st)
    ensures FlagUpToDate(lr, s1)
  {
    hide OpAt, LastExit;
    if lr.Some? && st.defining {
      var d := Current(st);
      SameOps(st, s1, d, |st.sequence|);
      NoExitSince(s1.frags, s1.sequence, d, |st.sequence|, |s1.sequence|);
      LastExitIs(st.frags, st.sequence, d, |st.sequence|);
      var e := LastExit(st.frags, st.sequence, d, |st.sequence|);
      assert UsesLink(lr.value, st.frags, st.sequence, d, e) == UsesLink(lr.value, s1.frags, s1.sequence, d, e);
    }
  }

  // ----- the tokens -----

  lemma {:induction false} EmitQuiet(st: State, op: Opcode, param: int)
    requires op != ExitWord
    ensures Quiet(st, Emit(st, op, param)) && Quiet(st, Create(st, op, param))
  {
  }

  lemma {:induction false} PlaceQuiet(st: State, id: nat)
    requires id < |st.frags| && st.frags[id].op == BranchLocation
    ensures Quiet(st, Place(st, id))
  {
  }

  lemma {:induction false} QuietTwice(a: State, b: State, c: State)
    requires Quiet(a, b) && Quiet(b, c) && Placed(b)
    ensures Quiet(a, c)
  {
    forall k | |a.sequence| <= k < |c.sequence| ensures OpAt(c.frags, c.sequence, k) != ExitWord {
      if k < |b.sequence| { assert OpAt(b.frags, b.sequence, k) != ExitWord; }
    }
  }

  lemma {:induction false} EmitPlaced(st: State, op: Opcode, param: int)
    requires Placed(st)
    ensures Placed(Emit(st, op, param)) && Placed(Create(st, op, param))
  {
  }

  lemma {:induction false} ForwardQuiet(st: State, op: Opcode)
    requires Placed(st) && op != ExitWord
    ensures Quiet(st, Emit(Create(st, BranchLocation, -1), op, |st.frags|))
    ensures Placed(Emit(Create(st, BranchLocation, -1), op, |st.frags|))
  {
    hide Quiet, Placed;
    var s1 := Create(st, BranchLocation, -1);
    EmitQuiet(st, BranchLocation, -1);
    EmitPlaced(st, BranchLocation, -1);
    EmitQuiet(s1, op, |st.frags|);
    EmitPlaced(s1, op, |st.frags|);
    QuietTwice(st, s1, Emit(s1, op, |st.frags|));
  }

  lemma {:induction false} DoQuiet(st: State)
    requires Placed(st)
    ensures Quiet(st, Emit(Emit(st, Do, -1), BranchLocation, -1))
  {
    hide Quiet, Placed;
    EmitQuiet(st, Do, -1);
    EmitPlaced(st, Do, -1);
    EmitQuiet(Emit(st, Do, -1), BranchLocation, -1);
    QuietTwice(st, Emit(st, Do, -1), Emit(Emit(st, Do, -1), BranchLocation, -1));
  }

  /** A location that a control-flow entry holds is placed after other fragments. */
  lemma {:induction false} EmitThenPlaceQuiet(st: State, s1: State, id: nat)
    requires Quiet(st, s1) && Placed(s1) && id < |st.frags| && st.frags[id].op == BranchLocation
    ensures Quiet(st, Place(s1, id))
  {
    PlaceQuiet(s1, id);
    QuietTwice(st, s1, Place(s1, id));
  }

  lemma {:induction false} EntryIsLocation(st: State, i: nat)
    requires Invariant(st) && i < |st.cf|
    ensures st.cf[i].fragment < |st.frags| && st.frags[st.cf[i].fragment].op == BranchLocation
  {
    hide Counted, WordsOk, TargetsOk;
    assert EntryOk(st, st.cf[i]);
  }

  predicate EndsWord(t: Token) {
    t.Exit? || t.Semicolon? || t.Colon?
  }

  lemma {:induction false} PatchingIsQuiet(lr: Option<Opcode -> bool>, st: State, t: Token)
    requires Invariant(st) && Placed(st) && StepToken(lr, st, t).Ok? && (t.Then? || t.Else? || t.Repeat?)
    ensures Quiet(st, StepToken(lr, st, t).value)
  {
    hide Invariant, Quiet, Placed, UpdateCalls, MarkLoops, OpenLoops, ScanBack, LoopsNeeded, Emit, Place, Create;
    var s1 := StepToken(lr, st, t).value;
    EntryIsLocation(st, |st.cf| - 1);
    match t
    case Then =>
      PlaceQuiet(st, Top(st).fragment);
      CfOnly(st, s1, Place(st, Top(st).fragment));
    case Else =>
      ForwardQuiet(st, Branch);
      EmitThenPlaceQuiet(st, Emit(Create(st, BranchLocation, -1), Branch, |st.frags|), Top(st).fragment);
      CfOnly(st, s1, Place(Emit(Create(st, BranchLocation, -1), Branch, |st.frags|), Top(st).fragment));
    case Repeat =>
      var loop := st.cf[|st.cf| - 2].fragment;
      EmitQuiet(st, Branch, loop);
      EmitPlaced(st, Branch, loop);
      EmitThenPlaceQuiet(st, Emit(st, Branch, loop), Top(st).fragment);
      CfOnly(st, s1, Place(Emit(st, Branch, loop), Top(st).fragment));
  }

  lemma {:induction false} BranchingIsQuiet(lr: Option<Opcode -> bool>, st: State, t: Token)
    requires Placed(st) && StepToken(lr, st, t).Ok?
    requires t.If? || t.While? || t.DoWord? || t.LoopWord? || t.Begin? || t.Until? || t.Again?
    ensures Quiet(st, StepToken(lr, st, t).value)
  {
    hide Quiet, Placed, UpdateCalls, MarkLoops, OpenLoops, ScanBack, LoopsNeeded, Emit, Place, Create;
    var s1 := StepToken(lr, st, t).value;
    match t
    case If =>
      ForwardQuiet(st, BranchIfZero);
      CfOnly(st, s1, Emit(Create(st, BranchLocation, -1), BranchIfZero, |st.frags|));
    case While =>
      ForwardQuiet(st, BranchIfZero);
      CfOnly(st, s1, Emit(Create(st, BranchLocation, -1), BranchIfZero, |st.frags|));
    case DoWord =>
      DoQuiet(st);
      CfOnly(st, s1, Emit(Emit(st, Do, -1), BranchLocation, -1));
    case LoopWord =>
      EmitQuiet(st, Loop, Top(st).fragment);
      CfOnly(st, s1, Emit(st, Loop, Top(st).fragment));
    case Begin =>
      EmitQuiet(st, BranchLocation, -1);
      CfOnly(st, s1, Emit(st, BranchLocation, -1));
    case Until =>
      EmitQuiet(st, BranchIfZero, Top(st).fragment);
      CfOnly(st, s1, Emit(st, BranchIfZero, Top(st).fragment));
    case Again =>
      EmitQuiet(st, Branch, Top(st).fragment);
      CfOnly(st, s1, Emit(st, Branch, Top(st).fragment));
  }

  lemma {:induction false} CfOnly(st: State, s1: State, s0: State)
    requires Quiet(st, s0) && s1 == s0.(cf := s1.cf)
    ensures Quiet(st, s1)
  {
  }

  lemma {:induction false} PlainIsQuiet(lr: Option<Opcode -> bool>, st: State, t: Token)
    requires StepToken(lr, st, t).Ok? && (t.Plain? || t.CallWord? || t.Tick? || t.Recurse? || t.Unloop?)
    ensures Quiet(st, StepToken(lr, st, t).value)
  {
    hide UpdateCalls, MarkLoops, OpenLoops, ScanBack, LoopsNeeded, Emit, Quiet;
    match t
    case Plain(op, param) => EmitQuiet(st, op, param);
    case CallWord(k) => EmitQuiet(st, DefinedWord, st.words[k]);
    case Tick(k) => EmitQuiet(st, PushOffsetAddress, st.words[k]);
    case Recurse => EmitQuiet(st, DefinedWord, Current(st));
    case Unloop => NothingIsQuiet(st);
  }

  lemma {:induction false} NothingIsQuiet(st: State)
    ensures Quiet(st, st)
  {
  }

  lemma {:induction false} OtherIsQuiet(lr: Option<Opcode -> bool>, st: State, t: Token)
    requires Invariant(st) && Placed(st) && StepToken(lr, st, t).Ok? && !EndsWord(t)
    ensures Quiet(st, StepToken(lr, st, t).value)
  {
    hide Invariant, Placed, StepToken, Quiet;
    if t.Then? || t.Else? || t.Repeat? { PatchingIsQuiet(lr, st, t); }
    else if t.Plain? || t.CallWord? || t.Tick? || t.Recurse? || t.Unloop? { PlainIsQuiet(lr, st, t); }
    else { BranchingIsQuiet(lr, st, t); }
  }

  lemma {:induction false} ColonStarts(lr: Option<Opcode -> bool>, st: State)
    requires Invariant(st) && Placed(st) && StepToken(lr, st, Colon).Ok? && |st.frags| == |st.sequence|
    ensures FlagUpToDate(lr, StepToken(lr, st, Colon).value)
  {
    hide Invariant, OpAt;
  }

  /** With nothing pending as many fragments are placed as created: the word's fragment number is
      its place in the sequence, which the scan relies on. */
  lemma {:induction false} NumberIsPlace(st: State)
    requires Invariant(st) && st.cf == []
    ensures |st.frags| == |st.sequence|
  {
    PlacedPlusPending(st);
  }

  lemma {:induction false} WordIsPlaced(st: State)
    requires Invariant(st) && st.defining
    ensures st.words != [] && Current(st) < |st.frags| && Current(st) < |st.sequence|
        && st.sequence[Current(st)] == Current(st)
  {
    hide Counted, ControlOk, TargetsOk;
    assert WordOk(st, Current(st));
  }

  /** The scan after an exit has been emitted makes the flag exact over the whole body. */
  lemma {:induction false} ScanCompletes(usesLr: Opcode -> bool, st: State, s1: State, d: nat)
    requires Placed(st) && d < |st.frags| && d < |st.sequence| && s1 == Emit(st, ExitWord, d)
    requires st.frags[d].calls == UsesLink(usesLr, st.frags, st.sequence, d,
        LastExit(st.frags, st.sequence, d, |st.sequence|))
    ensures (s1.frags[d].calls || ScanBack(usesLr, s1.frags, s1.sequence, d, |s1.sequence| - 2))
         == UsesLink(usesLr, s1.frags, s1.sequence, d, |s1.sequence|)
  {
    hide OpAt, LastExit, ScanBack, UsesLink;
    var n := |st.sequence|;
    var e := LastExit(st.frags, st.sequence, d, n);
    LastExitIs(st.frags, st.sequence, d, n);
    EmitKeepsOps(st, s1, d, e, n, usesLr);
    ScanSeesTail(usesLr, s1.frags, s1.sequence, d, n - 1);
    Joins(usesLr, s1.frags, s1.sequence, d, e, n);
    OneMore(usesLr, s1.frags, s1.sequence, d, n);
    NewIsExit(st, s1, d);
  }

  lemma {:induction false} NewIsExit(st: State, s1: State, d: nat)
    requires s1 == Emit(st, ExitWord, d)
    ensures OpAt(s1.frags, s1.sequence, |st.sequence|) == ExitWord
  {
  }

  lemma {:induction false} EmitKeepsOps(st: State, s1: State, d: nat, e: nat, n: nat, usesLr: Opcode -> bool)
    requires Placed(st) && n == |st.sequence| && d < n && s1 == Emit(st, ExitWord, d)
        && e == LastExit(st.frags, st.sequence, d, n) < n
    ensures LastExit(s1.frags, s1.sequence, d, n) == e
    ensures UsesLink(usesLr, s1.frags, s1.sequence, d, e) == UsesLink(usesLr, st.frags, st.sequence, d, e)
    ensures OpAt(s1.frags, s1.sequence, e) == OpAt(st.frags, st.sequence, e)
    ensures forall k :: 0 <= k < |s1.sequence| ==> s1.sequence[k] < |s1.frags|
  {
    hide LastExit;
    SameLastExit(st, s1, d, n);
    assert forall k :: 0 <= k < n ==> OpAt(s1.frags, s1.sequence, k) == OpAt(st.frags, st.sequence, k);
  }

  lemma {:induction false} SameLastExit(st: State, s1: State, d: nat, n: nat)
    requires Placed(st) && n <= |st.sequence| && st.frags <= s1.frags && st.sequence <= s1.sequence
    ensures LastExit(s1.frags, s1.sequence, d, n) == LastExit(st.frags, st.sequence, d, n)
  {
    if n > d + 1 { SameLastExit(st, s1, d, n - 1); }
  }

  /** A change of flags changes no operation. */
  lemma {:induction false} SameFlagsOps(usesLr: Opcode -> bool, frags: seq<Fragment>, d: nat, f: Fragment,
      sequence: seq<nat>, lo: nat, hi: nat)
    requires d < |frags| && f.op == frags[d].op
    ensures UsesLink(usesLr, frags[d := f], sequence, lo, hi) == UsesLink(usesLr, frags, sequence, lo, hi)
    ensures LastExit(frags[d := f], sequence, lo, hi) == LastExit(frags, sequence, lo, hi)
    ensures forall i :: ScanBack(usesLr, frags[d := f], sequence, lo, i) == ScanBack(usesLr, frags, sequence, lo, i)
  {
    hide UsesLink, LastExit, ScanBack;
    SameOpsSameLink(usesLr, frags[d := f], frags, sequence, lo, hi);
    SameLastExitFlags(frags, d, f, sequence, lo, hi);
    forall i: int ensures ScanBack(usesLr, frags[d := f], sequence, lo, i) == ScanBack(usesLr, frags, sequence, lo, i) {
      SameScan(usesLr, frags, d, f, sequence, lo, i);
    }
  }

  lemma {:induction false} SameOpsSameLink(usesLr: Opcode -> bool, frags1: seq<Fragment>, frags: seq<Fragment>,
      sequence: seq<nat>, lo: nat, hi: nat)
    requires forall k: nat :: OpAt(frags1, sequence, k) == OpAt(frags, sequence, k)
    ensures UsesLink(usesLr, frags1, sequence, lo, hi) == UsesLink(usesLr, frags, sequence, lo, hi)
  {
    hide OpAt;
  }

  lemma {:induction false} SameLastExitFlags(frags: seq<Fragment>, d: nat, f: Fragment, sequence: seq<nat>, lo: nat,
      hi: nat)
    requires d < |frags| && f.op == frags[d].op
    ensures LastExit(frags[d := f], sequence, lo, hi) == LastExit(frags, sequence, lo, hi)
  {
    if hi > lo + 1 { SameLastExitFlags(frags, d, f, sequence, lo, hi - 1); }
  }

  lemma {:induction false} SameScan(usesLr: Opcode -> bool, frags: seq<Fragment>, d: nat, f: Fragment,
      sequence: seq<nat>, lo: nat, i: int)
    requires d < |frags| && f.op == frags[d].op
    ensures ScanBack(usesLr, frags[d := f], sequence, lo, i) == ScanBack(usesLr, frags, sequence, lo, i)
    decreases i - lo
  {
    if i > lo && 0 <= i < |sequence| { SameScan(usesLr, frags, d, f, sequence, lo, i - 1); }
  }

  /** The word's flag says what a full scan of its body says. */
  ghost predicate FlagExact(lr: Option<Opcode -> bool>, st: State, d: nat) {
    lr.Some? ==> d < |st.frags| && st.frags[d].calls == UsesLink(lr.value, st.frags, st.sequence, d, |st.sequence|)
  }

  lemma {:induction false} UpdateIsExact(lr: Option<Opcode -> bool>, st: State, s1: State, d: nat)
    requires st.words != [] && d == Current(st) < |st.frags| && lr.Some? && s1 == UpdateCalls(lr, st)
    requires (st.frags[d].calls || ScanBack(lr.value, st.frags, st.sequence, d, |st.sequence| - 2))
          == UsesLink(lr.value, st.frags, st.sequence, d, |st.sequence|)
    ensures FlagExact(lr, s1, d) && s1.sequence == st.sequence && s1.words == st.words
  {
    hide ScanBack, UsesLink;
    SameFlagsOps(lr.value, st.frags, d, st.frags[d].(calls := true), st.sequence, d, |st.sequence|);
  }

  /** After every `exit` and `;` the flag of the word is set if and only if its body so far, all of
      it, contains an operation that uses the link register. */
  lemma {:induction false} ExitMakesExact(lr: Option<Opcode -> bool>, st: State, t: Token)
    requires Invariant(st) && FlagUpToDate(lr, st) && (t.Exit? || t.Semicolon?) && StepToken(lr, st, t).Ok?
    ensures FlagExact(lr, StepToken(lr, st, t).value, Current(st))
  {
    hide Invariant, ScanBack, UsesLink, LastExit, OpenLoops, UpdateCalls, MarkLoops;
    PlacedPlusPending(st);
    if lr.Some? {
      WordIsPlaced(st);
      var d := Current(st);
      var s1 := Emit(st, ExitWord, d);
      ScanCompletes(lr.value, st, s1, d);
      if t.Semicolon? {
        UpdateIsExact(lr, s1, UpdateCalls(lr, s1), d);
      } else {
        MarkKeepsOps(lr.value, s1, MarkLoops(s1), d);
        UpdateIsExact(lr, MarkLoops(s1), UpdateCalls(lr, MarkLoops(s1)), d);
      }
    }
  }

  lemma {:induction false} MarkKeepsOps(usesLr: Opcode -> bool, st: State, s1: State, d: nat)
    requires st.words != [] && d == Current(st) < |st.frags| && s1 == MarkLoops(st)
    ensures s1.sequence == st.sequence && s1.words == st.words && |s1.frags| == |st.frags|
        && s1.frags[d].calls == st.frags[d].calls
    ensures UsesLink(usesLr, s1.frags, s1.sequence, d, |st.sequence|)
        == UsesLink(usesLr, st.frags, st.sequence, d, |st.sequence|)
    ensures ScanBack(usesLr, s1.frags, s1.sequence, d, |st.sequence| - 2)
        == ScanBack(usesLr, st.frags, st.sequence, d, |st.sequence| - 2)
  {
    hide ScanBack, UsesLink, OpenLoops;
    SameFlagsOps(usesLr, st.frags, d, st.frags[d].(loops := true), st.sequence, d, |st.sequence|);
  }

  // ----- every run -----

  lemma {:induction false} EndsWithExit(lr: Option<Opcode -> bool>, st: State)
    requires Invariant(st) && StepToken(lr, st, Exit).Ok?
    ensures var s1 := StepToken(lr, st, Exit).value;
      && s1.words == st.words && s1.words != [] && Current(st) < |s1.frags| && |s1.sequence| == |st.sequence| + 1
      && OpAt(s1.frags, s1.sequence, |st.sequence|) == ExitWord
  {
    hide Invariant, ScanBack, OpenLoops;
  }

  lemma {:induction false} ExactIsUpToDate(lr: Option<Opcode -> bool>, s1: State, d: nat, n: nat)
    requires FlagExact(lr, s1, d) && s1.words != [] && d == Current(s1) < |s1.frags| && d < n && |s1.sequence| == n + 1
    requires OpAt(s1.frags, s1.sequence, n) == ExitWord
    ensures FlagUpToDate(lr, s1)
  {
    hide OpAt, UsesLink;
    if lr.Some? { OneMore(lr.value, s1.frags, s1.sequence, d, n); }
  }

  lemma {:induction false} StepKeepsFlag(lr: Option<Opcode -> bool>, st: State, t: Token)
    requires Invariant(st) && FlagUpToDate(lr, st) && StepToken(lr, st, t).Ok?
    ensures FlagUpToDate(lr, StepToken(lr, st, t).value)
  {
    hide Invariant, StepToken, FlagUpToDate;
    PlacedPlusPending(st);
    var s1 := StepToken(lr, st, t).value;
    if !EndsWord(t) {
      OtherIsQuiet(lr, st, t);
      QuietKeeps(lr, st, s1);
    } else if t.Colon? {
      NothingOpen(lr, st);
      NumberIsPlace(st);
      ColonStarts(lr, st);
    } else if t.Semicolon? {
      NoWordOpen(lr, st);
    } else {
      ExitMakesExact(lr, st, t);
      EndsWithExit(lr, st);
      WordOpen(lr, st);
      WordIsPlaced(st);
      ExactIsUpToDate(lr, s1, Current(st), |st.sequence|);
    }
  }

  lemma {:induction false} NothingOpen(lr: Option<Opcode -> bool>, st: State)
    requires StepToken(lr, st, Colon).Ok?
    ensures st.cf == []
  {
  }

  lemma {:induction false} WordOpen(lr: Option<Opcode -> bool>, st: State)
    requires StepToken(lr, st, Exit).Ok?
    ensures st.defining
  {
  }

  lemma {:induction false} NoWordOpen(lr: Option<Opcode -> bool>, st: State)
    requires StepToken(lr, st, Semicolon).Ok?
    ensures FlagUpToDate(lr, StepToken(lr, st, Semicolon).value)
  {
    hide ScanBack;
  }

  lemma {:induction false} RunKeepsFlag(lr: Option<Opcode -> bool>, st: State, ts: seq<Token>)
    requires Invariant(st) && FlagUpToDate(lr, st) && RunTokens(lr, st, ts).Ok?
    ensures FlagUpToDate(lr, RunTokens(lr, st, ts).value)
    decreases |ts|
  {
    hide Invariant, StepToken, FlagUpToDate;
    if ts != [] {
      StepKeepsInvariant(lr, st, ts[0]);
      StepKeepsFlag(lr, st, ts[0]);
      RunKeepsFlag(lr, StepToken(lr, st, ts[0]).value, ts[1..]);
    }
  }

  lemma {:induction false} NoWordAtFirst(lr: Option<Opcode -> bool>)
    ensures FlagUpToDate(lr, InitialState())
  {
  }

  /** In every compilation, whenever a word is left, by `exit` or by `;`, its CALLS flag is set if
      and only if a full scan of its body so far finds an operation that uses the link register. */
  lemma {:induction false} CallsFlagIsExact(lr: Option<Opcode -> bool>, ts: seq<Token>, t: Token)
    requires RunTokens(lr, InitialState(), ts).Ok? && (t.Exit? || t.Semicolon?)
    requires StepToken(lr, RunTokens(lr, InitialState(), ts).value, t).Ok?
    ensures var st := RunTokens(lr, InitialState(), ts).value;
      st.words != [] && FlagExact(lr, StepToken(lr, st, t).value, Current(st))
  {
    hide Invariant, FlagUpToDate, FlagExact, RunTokens, ScanBack;
    InitialInvariant();
    NoWordAtFirst(lr);
    RunKeepsInvariant(lr, InitialState(), ts);
    RunKeepsFlag(lr, InitialState(), ts);
    ExitMakesExact(lr, RunTokens(lr, InitialState(), ts).value, t);
  }

  /** On the ESP32-S3: the flag is set if and only if the body calls something. */
  lemma {:induction false} CallsFlagOnEsp32(ts: seq<Token>, t: Token)
    requires RunTokens(Some(OpUsesLr), InitialState(), ts).Ok? && (t.Exit? || t.Semicolon?)
    requires StepToken(Some(OpUsesLr), RunTokens(Some(OpUsesLr), InitialState(), ts).value, t).Ok?
    ensures var lr := Some(OpUsesLr);
      var st := RunTokens(lr, InitialState(), ts).value;
      var s1 := StepToken(lr, st, t).value;
      && st.words != [] && Current(st) < |s1.frags|
      && (s1.frags[Current(st)].calls
          <==> exists k :: Current(st) < k < |s1.sequence| && OpUsesLr(OpAt(s1.frags, s1.sequence, k)))
  {
    hide RunTokens, StepToken, OpAt;
    CallsFlagIsExact(Some(OpUsesLr), ts, t);
  }
}
