/** The laid-out x86 code run on the processor, fragment by fragment: the code with chores left out does
    what the code with all of them does (x86-32_backend.c:351-600, mcp_forth.c:372-398). */
module X86Running {
  import opened Common
  import opened Fragments
  import opened NumCodec
  import opened LittleEndian
  import opened Relaxation
  import opened FragmentMachine
  import C = Chores
  import opened X86Backend
  import opened X86Machine
  import opened X86Meaning
  import opened X86Elision

  // ----- code behind code -----

  lemma {:induction false} ModRmExtends(s: seq<byte>, t: seq<byte>)
    requires ModRm(s).Some?
    ensures ModRm(s + t) == ModRm(s)
  {
    hide FromLow;
    assert (s + t)[1] == s[1];
    if |s| >= 3 { assert (s + t)[2] == s[2]; }
    if |s| >= 6 { assert (s + t)[2..][..4] == s[2..][..4]; }
  }

  /** An instruction is read alike whatever comes behind it. */
  lemma {:induction false} DecodeExtends(s: seq<byte>, t: seq<byte>)
    requires X86Machine.Decode(s).Some?
    ensures X86Machine.Decode(s + t) == X86Machine.Decode(s)
  {
    hide FromLow, ModRm;
    assert (s + t)[0] == s[0];
    if ModRm(s).Some? { ModRmExtends(s, t); }
    if |s| >= 2 { assert (s + t)[1] == s[1]; }
    if |s| >= 3 { assert (s + t)[2] == s[2]; }
    if |s| >= 5 { assert (s + t)[1..][..4] == s[1..][..4]; }
    if |s| >= 6 { assert (s + t)[2..][..4] == s[2..][..4]; }
  }

  /** What follows the first instruction. */
  function Following(s: seq<byte>, len: nat, at: int, x: Flow): Flow
    requires 0 < len <= |s|
  {
    match x
    case On(c1) => Through(s[len..], at + len, c1)
    case Goes(a, c1) => if at < a < at + |s| then Through(s[a - at..], a, c1) else Goes(a, c1)
    case Unknown => Unknown
  }

  lemma {:induction false} FirstInstruction(s: seq<byte>, at: int, c: Core)
    requires s != [] && Through(s, at, c) != Unknown
    ensures X86Machine.Decode(s).Some?
    ensures var (i, len) := X86Machine.Decode(s).value;
      0 < len <= |s| && Through(s, at, c) == Following(s, len, at, Performed(i, at + len, c))
  {
    hide X86Machine.Decode, Performed;
  }

  lemma {:induction false} ThisInstruction(s: seq<byte>, at: int, c: Core, i: Ins, len: nat)
    requires X86Machine.Decode(s) == Some((i, len)) && 0 < len <= |s|
    ensures Through(s, at, c) == Following(s, len, at, Performed(i, at + len, c))
  {
    hide X86Machine.Decode, Performed;
  }

  /** How code a with code b behind it goes on after a. */
  function Beyond(b: seq<byte>, end: int, x: Flow): Flow {
    match x
    case On(c1) => Through(b, end, c1)
    case Goes(a, c1) => if end <= a < end + |b| then Through(b[a - end..], a, c1) else Goes(a, c1)
    case Unknown => Unknown
  }

  lemma {:induction false} Suffix(a: seq<byte>, b: seq<byte>, n: nat)
    requires n <= |a| + |b|
    ensures (a + b)[n..] == if n <= |a| then a[n..] + b else b[n - |a|..]
  {
  }

  /** Code a with code b behind it: what leaves a past its end, or goes on in b, does what b does. */
  lemma {:induction false} ThroughBoth(a: seq<byte>, b: seq<byte>, at: int, c: Core)
    requires Through(a, at, c) != Unknown
    ensures Through(a + b, at, c) == Beyond(b, at + |a|, Through(a, at, c))
    decreases |a|
  {
    hide X86Machine.Decode, Performed, Through;
    if a == [] {
      assert a + b == b;
      AtEnd(at, c);
    } else {
      FirstInstruction(a, at, c);
      DecodeExtends(a, b);
      var (i, len) := X86Machine.Decode(a).value;
      ThisInstruction(a + b, at, c, i, len);
      Suffix(a, b, len);
      match Performed(i, at + len, c)
      case On(c1) => ThroughBoth(a[len..], b, at + len, c1);
      case Goes(x, c1) =>
        if at < x < at + |a| + |b| { Suffix(a, b, x - at); }
        if at < x < at + |a| { ThroughBoth(a[x - at..], b, x, c1); }
    }
  }

  // ----- the flags of the processor -----

  /** The same core, but for flags that d may not know. */
  predicate Knows(c: Core, d: Core) {
    c.(flags := None) == d.(flags := None) && (d.flags.Some? ==> c.flags == d.flags)
  }

  /** What is known without some flags holds whatever the flags are. */
  predicate Agrees(x: Flow, y: Flow) {
    match y
    case On(d) => x.On? && Knows(x.c, d)
    case Goes(a, d) => x.Goes? && x.a == a && Knows(x.c, d)
    case Unknown => true
  }

  predicate UsesMemory(i: Ins) {
    i.Load? || i.Store? || i.PushReg? || i.PushMem? || i.PopReg? || i.LeaveFrame?
  }

  predicate Steers(i: Ins) {
    i.JumpBy? || i.JumpZero? || i.JumpLess? || i.CallBy? || i.CallReg? || i.CallMem? || i.Return? || i.TestSelf?
    || i.CompareTop?
  }

  lemma {:induction false} MemoryAgrees(i: Ins, next: int, c: Core, d: Core)
    requires Knows(c, d) && UsesMemory(i)
    ensures Agrees(Performed(i, next, c), Performed(i, next, d))
  {
    hide Wrap, Written, ReadFrom, Branched;
  }

  lemma {:induction false} SetAgrees(c: Core, d: Core, reg: int, x: int)
    requires Knows(c, d)
    ensures Knows(Set(c, reg, x), Set(d, reg, x))
    ensures Knows(Set(c, reg, x).(flags := None), Set(d, reg, x).(flags := None))
  {
  }

  lemma {:induction false} GetAgrees(c: Core, d: Core, reg: int)
    requires Knows(c, d)
    ensures Get(c, reg) == Get(d, reg)
  {
  }

  lemma {:induction false} MovesAgree(i: Ins, next: int, c: Core, d: Core)
    requires Knows(c, d) && !Steers(i) && !UsesMemory(i)
    ensures Agrees(Performed(i, next, c), Performed(i, next, d))
  {
    hide Wrap, Written, ReadFrom, Branched, Set, Get, Knows, PushOn, Write, Read;
    if i.Move? {
      GetAgrees(c, d, i.src);
      SetAgrees(c, d, i.dst, Get(c, i.src));
    } else {
      GetAgrees(c, d, i.reg);
      SetAgrees(c, d, i.reg, if i.SetImm? then i.x else if i.AddImm? then Get(c, i.reg) + i.x
          else if i.SubImm? then Get(c, i.reg) - i.x else if i.AlignDown? then Get(c, i.reg) - Get(c, i.reg) % 4
          else if i.Clear? then 0 else Wrap(Get(c, i.reg) + 1));
    }
  }

  lemma {:induction false} SteersAgree(i: Ins, next: int, c: Core, d: Core)
    requires Knows(c, d) && Steers(i)
    ensures Agrees(Performed(i, next, c), Performed(i, next, d))
  {
    hide Wrap, Written, ReadFrom;
  }

  lemma {:induction false} PerformedAgrees(i: Ins, next: int, c: Core, d: Core)
    requires Knows(c, d)
    ensures Agrees(Performed(i, next, c), Performed(i, next, d))
  {
    hide Performed, Agrees, Knows;
    if Steers(i) {
      SteersAgree(i, next, c, d);
    } else if UsesMemory(i) {
      MemoryAgrees(i, next, c, d);
    } else {
      MovesAgree(i, next, c, d);
    }
  }

  lemma {:induction false} ThroughAgrees(s: seq<byte>, at: int, c: Core, d: Core)
    requires Knows(c, d)
    ensures Agrees(Through(s, at, c), Through(s, at, d))
    decreases |s|
  {
    hide X86Machine.Decode, Performed, Knows;
    if s != [] && X86Machine.Decode(s).Some? {
      var (i, len) := X86Machine.Decode(s).value;
      if 0 < len <= |s| {
        PerformedAgrees(i, at + len, c, d);
        match Performed(i, at + len, d)
        case On(d1) => ThroughAgrees(s[len..], at + len, Performed(i, at + len, c).c, d1);
        case Goes(x, d1) =>
          if at < x < at + |s| { ThroughAgrees(s[x - at..], x, Performed(i, at + len, c).c, d1); }
        case Unknown =>
      }
    }
  }

  // ----- the laid-out code as a program with chores -----

  /** What the chores do not touch. */
  datatype Rest = Rest(ecx: int, edx: int, esp: int, ebp: int, esi: int, edi: int)

  type Machine = C.Cpu<map<int, int>, Rest>

  function CoreOf(c: Machine): Core {
    Core(c.top, c.rest.ecx, c.rest.edx, c.sp, c.rest.esp, c.rest.ebp, c.rest.esi, c.rest.edi, c.mem, None)
  }

  /** The flags of the processor do not outlive a fragment. */
  function MachineOf(c: Core): Machine {
    C.Cpu(c.eax, c.ebx, c.mem, Rest(c.ecx, c.edx, c.esp, c.ebp, c.esi, c.edi))
  }

  /** A layout and the address of its first byte. */
  datatype Image = Image(t: Tables, frags: seq<Fragment>, order: seq<nat>, r: seq<nat>, org: int)

  ghost predicate Ready(m: Image) {
    LaidOut(m.t, m.frags, m.order, m.r) && ChoresAre(m.t) && TablesOk(m.t)
  }

  ghost function AddressAt(m: Image, k: nat): int {
    if k <= |m.r| then m.org + Position(BackendOf(m.t, m.frags, m.order), m.r, k) else m.org
  }

  ghost function NeedsOf(m: Image, k: nat): C.Flags {
    NeedsAt(m.t, m.frags, m.order, k)
  }

  /** The body of the fragment at place k, and its address behind the chores that are needed. */
  ghost function BodyAt(m: Image, k: nat): seq<byte> {
    if Known(m.frags, m.order, k) && k < |m.r| && TargetAt(m.frags, m.order, k) < |m.r| then
      var f := m.frags[m.order[k]];
      Body(m.t, f, IsFramed(m.frags, f), m.r[k],
          OffsetAt(m.t, m.frags, f, NeedsOf(m, k), m.r[k], Distance(BackendOf(m.t, m.frags, m.order), m.r, k)))
    else []
  }

  ghost function BodyAddress(m: Image, k: nat): int {
    AddressAt(m, k) + |Prologue(m.t, NeedsOf(m, k))|
  }

  ghost predicate Enters(m: Image, j: nat, a: int) {
    j < |m.order| && IsEntry(m.frags, m.order, j) && AddressAt(m, j) == a
  }

  /** Control that leaves a body: at its end to the next place, elsewhere to an entry at that address.
      An address that is no entry is not described. */
  ghost function NextOf(m: Image, k: nat, x: Flow, was: Machine): (Machine, C.Next) {
    match x
    case On(c) => (MachineOf(c), C.Fall)
    case Goes(a, c) =>
      if a == BodyAddress(m, k) + |BodyAt(m, k)| then (MachineOf(c), C.Fall)
      else if exists j :: Enters(m, j, a) then
        var j :| Enters(m, j, a);
        (MachineOf(c), C.Jump(j))
      else (MachineOf(c), C.Stop)
    case Unknown => (was.(top := 0), C.Stop)
  }

  ghost function ProgramOf(m: Image): C.Program<map<int, int>, Rest> {
    C.Program(FlagsOf(m.t, m.frags, m.order, |m.order|),
              (mem: map<int, int>, a: int) => ReadFrom(mem, a),
              (mem: map<int, int>, a: int, x: int) => Written(mem, a, x),
              (k: nat, c: Machine) => NextOf(m, k, Through(BodyAt(m, k), BodyAddress(m, k), CoreOf(c)), c))
  }

  // ----- the chores of the code are the chores of the program -----

  lemma {:induction false} PrologueRuns(m: Image, needs: C.Flags, tail: seq<byte>, at: int, c: Core) returns (d: Core)
    requires ChoresAre(m.t)
    ensures Through(Prologue(m.t, needs) + tail, at, c) == Through(tail, at + |Prologue(m.t, needs)|, d)
    ensures MachineOf(d) == C.Before(ProgramOf(m), needs, MachineOf(c)) && Knows(d, CoreOf(MachineOf(d)))
  {
    hide Through, Encodes, FlagsOf;
    ImmediateForms();
    PlainMemoryForms();
    var a, b := if needs.a then m.t.choreA else [], if needs.b then m.t.choreB else [];
    assert Prologue(m.t, needs) + tail == a + (b + tail);
    var c1 := if needs.a then c.(ebx := c.ebx + 4, flags := None) else c;
    if needs.a { GoesOn(a, b + tail, at, c, AddImm(EBX, 4), c1); } else { assert a + (b + tail) == b + tail; }
    d := if needs.b then Write(c1, c1.ebx, c1.eax) else c1;
    if needs.b { GoesOn(b, tail, at + |a|, c1, Store(EBX, 0, EAX), d); } else { assert b + tail == tail; }
  }

  lemma {:induction false} EpilogueRuns(m: Image, needs: C.Flags, at: int, c: Core) returns (d: Core)
    requires ChoresAre(m.t)
    ensures Through(Epilogue(m.t, needs), at, c) == On(d)
    ensures MachineOf(d) == C.After(ProgramOf(m), needs, MachineOf(c))
  {
    hide Through, Encodes, FlagsOf;
    ImmediateForms();
    PlainMemoryForms();
    var y, z := if needs.y then m.t.choreY else [], if needs.z then m.t.choreZ else [];
    var c1 := if needs.y then c.(eax := Read(c, c.ebx)) else c;
    if needs.y { GoesOn(y, z, at, c, Load(EAX, EBX, 0), c1); } else { assert y + z == z; }
    d := if needs.z then c1.(ebx := c1.ebx - 4, flags := None) else c1;
    if needs.z { OnlyOne(z, at + |y|, c1, SubImm(EBX, 4), d); } else { AtEnd(at + |y|, c1); }
  }

  // ----- one fragment of the code is one step of the program -----

  /** What the body does after the chores f in front of it. */
  ghost function BodyFlow(m: Image, k: nat, f: C.Flags, c: Machine): Flow {
    Through(BodyAt(m, k), BodyAddress(m, k), CoreOf(C.Before(ProgramOf(m), f, c)))
  }

  /** The body at its address, with these chores around it. */
  ghost function CodeWith(m: Image, k: nat, f: C.Flags): seq<byte> {
    Prologue(m.t, f) + (BodyAt(m, k) + Epilogue(m.t, f))
  }

  ghost function StartWith(m: Image, k: nat, f: C.Flags): int {
    BodyAddress(m, k) - |Prologue(m.t, f)|
  }

  /** The body does what the processor model knows, and does not jump into the chores behind it. */
  ghost predicate Described(m: Image, k: nat, f: C.Flags, c: Machine) {
    var x, end := BodyFlow(m, k, f, c), BodyAddress(m, k) + |BodyAt(m, k)|;
    x != Unknown && (x.Goes? ==> x.a <= end || x.a >= end + |Epilogue(m.t, f)|)
  }

  /** Control is where the step says: past the end of the fragment, at an entry, or nowhere that is
      described. */
  ghost predicate Follows(m: Image, k: nat, x: Flow, s: C.Config<map<int, int>, Rest>) {
    match s
    case At(j, c) =>
      && !x.Unknown? && MachineOf(x.c) == c
      && (if x.On? then j == k + 1 else x.a == AddressAt(m, j))
    case Stopped(c) =>
      x.Goes? && MachineOf(x.c) == c && forall j :: !Enters(m, j, x.a)
  }

  /** The bytes of place k, wherever control then goes. */
  lemma {:induction false} CodeIs(m: Image, k: nat)
    requires Ready(m) && k < |m.order|
    ensures Known(m.frags, m.order, k)
    ensures Chunk(m.t, m.frags, m.order, m.r, k) == CodeWith(m, k, NeedsOf(m, k))
    ensures StartWith(m, k, NeedsOf(m, k)) == AddressAt(m, k)
    ensures AddressAt(m, k + 1) == BodyAddress(m, k) + |BodyAt(m, k)| + |Epilogue(m.t, NeedsOf(m, k))|
  {
    hide Body, BodySize, NeedsAt, Position, Caps, Solved, BelowSolved, IsFramed, Prologue, Epilogue, TablesOk,
        ChoresAre;
    assert TargetAt(m.frags, m.order, k) < |m.order|;
    var p, b, e := Prologue(m.t, NeedsOf(m, k)), BodyAt(m, k), Epilogue(m.t, NeedsOf(m, k));
    assert p + b + e == p + (b + e);
    NextPositionOf(BackendOf(m.t, m.frags, m.order), m.r, k);
    ChunkLength(m.t, m.frags, m.order, m.r, k);
  }

  lemma {:induction false} StepFalls(m: Image, k: nat, f: C.Flags, c: Machine)
    requires var y := BodyFlow(m, k, f, c);
      y.On? || (y.Goes? && y.a == BodyAddress(m, k) + |BodyAt(m, k)|)
    ensures C.StepWith(ProgramOf(m), f, k, c)
         == C.At(k + 1, C.After(ProgramOf(m), f, MachineOf(BodyFlow(m, k, f, c).c)))
  {
    hide Through, BodyAt, BodyAddress, FlagsOf, C.After, C.Before;
  }

  lemma {:induction false} StepGoes(m: Image, k: nat, f: C.Flags, c: Machine)
    requires var y := BodyFlow(m, k, f, c); y.Goes? && y.a != BodyAddress(m, k) + |BodyAt(m, k)|
    ensures var y, s := BodyFlow(m, k, f, c), C.StepWith(ProgramOf(m), f, k, c);
      if exists j :: Enters(m, j, y.a) then s.At? && Enters(m, s.place, y.a) && s.cpu == MachineOf(y.c)
      else s == C.Stopped(MachineOf(y.c))
  {
    hide Through, BodyAt, BodyAddress, FlagsOf, C.After, C.Before, Enters;
  }

  /** The body and the chores behind it, from the core that the chores in front have left. */
  lemma {:induction false} BodyAndChores(m: Image, k: nat, f: C.Flags, c: Machine, d: Core)
    requires ChoresAre(m.t) && MachineOf(d) == C.Before(ProgramOf(m), f, c)
    requires Knows(d, CoreOf(MachineOf(d))) && Described(m, k, f, c)
    ensures var e := Epilogue(m.t, f);
      var x, y := Through(BodyAt(m, k) + e, BodyAddress(m, k), d), BodyFlow(m, k, f, c);
      var end := BodyAddress(m, k) + |BodyAt(m, k)|;
      if y.On? || (y.a == end && e != []) then
        x.On? && MachineOf(x.c) == C.After(ProgramOf(m), f, MachineOf(y.c))
      else x.Goes? && x.a == y.a && MachineOf(x.c) == MachineOf(y.c)
  {
    hide Through, BodyAt, BodyAddress, ProgramOf, Epilogue, C.After, C.Before, ChoresAre;
    var at, s, e := BodyAddress(m, k), BodyAt(m, k), Epilogue(m.t, f);
    ThroughAgrees(s, at, d, CoreOf(MachineOf(d)));
    var x := Through(s, at, d);
    ThroughBoth(s, e, at, d);
    if x.On? || (x.a == at + |s| && e != []) {
      var d2 := EpilogueRuns(m, f, at + |s|, x.c);
      assert e[0..] == e;
    }
  }

  lemma {:induction false} NoChoresBehind(m: Image, k: nat, f: C.Flags, c: Machine)
    requires ChoresAre(m.t) && Epilogue(m.t, f) == []
    ensures C.After(ProgramOf(m), f, c) == c
  {
    hide ProgramOf;
    assert !f.y && !f.z;
  }

  /** Chores that leave nothing behind the body leave nothing there when some of them are left out. */
  ghost predicate EndsAlike(m: Image, k: nat, f: C.Flags) {
    Epilogue(m.t, f) == [] ==> Epilogue(m.t, NeedsOf(m, k)) == []
  }

  lemma {:induction false} BodyFollows(m: Image, k: nat, f: C.Flags, c: Machine, d: Core)
    requires Ready(m) && k < |m.order| && MachineOf(d) == C.Before(ProgramOf(m), f, c) && EndsAlike(m, k, f)
    requires Knows(d, CoreOf(MachineOf(d))) && Described(m, k, f, c)
    ensures var x := Through(BodyAt(m, k) + Epilogue(m.t, f), BodyAddress(m, k), d);
      Follows(m, k, x, C.StepWith(ProgramOf(m), f, k, c))
  {
    hide Through, BodyAt, BodyAddress, ProgramOf, Epilogue, AddressAt, C.After, C.Before, C.StepWith, BodyFlow,
        Knows, ChoresAre, LaidOut, TablesOk, MachineOf, IsEntry, CodeWith, StartWith, NeedsOf;
    CodeIs(m, k);
    BodyAndChores(m, k, f, c, d);
    var y := BodyFlow(m, k, f, c);
    if y.On? || y.a == BodyAddress(m, k) + |BodyAt(m, k)| {
      StepFalls(m, k, f, c);
      if Epilogue(m.t, f) == [] { NoChoresBehind(m, k, f, MachineOf(y.c)); }
    } else {
      StepGoes(m, k, f, c);
    }
  }

  /** Running the code of a place with any chores around its body is the step with those chores. */
  lemma {:induction false} StepsThrough(m: Image, k: nat, f: C.Flags, c: Core)
    requires Ready(m) && k < |m.order| && Described(m, k, f, MachineOf(c)) && EndsAlike(m, k, f)
    ensures Follows(m, k, Through(CodeWith(m, k, f), StartWith(m, k, f), c),
        C.StepWith(ProgramOf(m), f, k, MachineOf(c)))
  {
    hide Through, BodyAt, Follows, Described, C.StepWith, Ready, BodyAddress, Prologue, Epilogue, ProgramOf, C.Before,
        Knows, EndsAlike;
    ReadyIs(m);
    var d := PrologueRuns(m, f, BodyAt(m, k) + Epilogue(m.t, f), StartWith(m, k, f), c);
    BodyFollows(m, k, f, MachineOf(c), d);
  }

  lemma {:induction false} StepsWith(m: Image, k: nat, c: Machine)
    requires k < |m.order|
    ensures C.Step(ProgramOf(m), true, C.At(k, c)) == C.StepWith(ProgramOf(m), NeedsOf(m, k), k, c)
    ensures C.Step(ProgramOf(m), false, C.At(k, c))
         == C.StepWith(ProgramOf(m), FlagsOf(m.t, m.frags, m.order, |m.order|)[k], k, c)
  {
    hide FlagsOf, C.StepWith, C.NeededChores, NextOf;
  }

  /** Running the emitted bytes of a place is a step of the program with the chores left out. */
  lemma {:induction false} CodeSteps(m: Image, k: nat, c: Core)
    requires Ready(m) && k < |m.order| && Described(m, k, NeedsOf(m, k), MachineOf(c))
    ensures Follows(m, k, Through(Chunk(m.t, m.frags, m.order, m.r, k), AddressAt(m, k), c),
        C.Step(ProgramOf(m), true, C.At(k, MachineOf(c))))
  {
    hide Through, Follows, Described, Chunk, C.StepWith, C.Step, Ready, ProgramOf, NeedsOf, CodeWith, StartWith;
    CodeIs(m, k);
    StepsWith(m, k, MachineOf(c));
    StepsThrough(m, k, NeedsOf(m, k), c);
  }

  lemma {:induction false} FullCodeIs(m: Image, k: nat)
    requires Ready(m) && k < |m.order|
    ensures Known(m.frags, m.order, k) && TargetAt(m.frags, m.order, k) < |m.order| == |m.r|
    ensures var f := m.frags[m.order[k]];
      && FlagsOf(m.t, m.frags, m.order, |m.order|)[k] == GetFlags(m.t, f)
      && CodeWith(m, k, GetFlags(m.t, f))
         == FullCode(m.t, f, IsFramed(m.frags, f), m.r[k], OffsetAt(m.t, m.frags, f, NeedsOf(m, k), m.r[k],
             Distance(BackendOf(m.t, m.frags, m.order), m.r, k)))
  {
    hide Body, NeedsAt, Position, Caps, Solved, BelowSolved, IsFramed, Prologue, Epilogue, TablesOk, ChoresAre,
        GetFlags,
        FlagsOf;
    assert TargetAt(m.frags, m.order, k) < |m.order|;
    FlagAt(m.t, m.frags, m.order, |m.order|, k);
    var f := m.frags[m.order[k]];
    var p, b, e := Prologue(m.t, GetFlags(m.t, f)), BodyAt(m, k), Epilogue(m.t, GetFlags(m.t, f));
    assert p + b + e == p + (b + e);
  }

  lemma {:induction false} NeedsEndAlike(m: Image, k: nat)
    requires k < |m.order| && ChoresAre(m.t)
    ensures EndsAlike(m, k, FlagsOf(m.t, m.frags, m.order, |m.order|)[k])
  {
    hide FlagsOf;
  }

  /** The code of a fragment with all its chores, which is what the fragment means (X86Simulation), is a
      step of the program with nothing left out. */
  lemma {:induction false} FullCodeSteps(m: Image, k: nat, c: Core)
    requires Ready(m) && k < |m.order|
    requires Described(m, k, FlagsOf(m.t, m.frags, m.order, |m.order|)[k], MachineOf(c))
    ensures Known(m.frags, m.order, k) && TargetAt(m.frags, m.order, k) < |m.order| == |m.r|
    ensures var f := m.frags[m.order[k]];
      var full := FullCode(m.t, f, IsFramed(m.frags, f), m.r[k], OffsetAt(m.t, m.frags, f, NeedsOf(m, k), m.r[k],
          Distance(BackendOf(m.t, m.frags, m.order), m.r, k)));
      Follows(m, k, Through(full, StartWith(m, k, GetFlags(m.t, f)), c),
          C.Step(ProgramOf(m), false, C.At(k, MachineOf(c))))
  {
    hide Through, Follows, Described, C.StepWith, C.Step, Ready, ProgramOf, NeedsOf, CodeWith, StartWith, FullCode,
        FlagsOf,
        GetFlags, EndsAlike, IsFramed, OffsetAt, Position;
    ReadyIs(m);
    FullCodeIs(m, k);
    NeedsEndAlike(m, k);
    StepsWith(m, k, MachineOf(c));
    StepsThrough(m, k, FlagsOf(m.t, m.frags, m.order, |m.order|)[k], c);
  }

  lemma {:induction false} ReadyIs(m: Image)
    requires Ready(m)
    ensures ChoresAre(m.t) && |m.r| == |m.order|
  {
    hide LaidOut, ChoresAre, TablesOk;
    LengthIs(m);
  }

  lemma {:induction false} LengthIs(m: Image)
    requires LaidOut(m.t, m.frags, m.order, m.r)
    ensures |m.r| == |m.order|
  {
    hide Sound, Solved, BelowSolved;
  }

  // ----- leaving chores out -----

  predicate SameFlow(x: Flow, y: Flow) {
    match y
    case On(d) => x.On? && x.c.(flags := None) == d.(flags := None)
    case Goes(a, d) => x.Goes? && x.a == a && x.c.(flags := None) == d.(flags := None)
    case Unknown => x.Unknown?
  }

  /** The assembled builtins that are flagged CLOB do the same whatever is in eax. */
  ghost predicate BuiltinsClobber(t: Tables) {
    forall n: int, at: int, c: Core, x: int :: t.flags(n).clob ==>
      SameFlow(Through(t.code(n), at, c.(eax := x)), Through(t.code(n), at, c))
  }

  /** The numbers of the fragments are small enough for their instructions. */
  predicate NumberFits(f: Fragment) {
    && (f.op == PushLiteral || f.op == PushDataAddress ==> IsInt32(f.param))
    && (f.op == UseVariableOrConstant ==> IsInt32(-4 * f.param)) && (f.op == PushCallback ==> IsInt32(4 * f.param))
  }

  ghost predicate NumbersFit(frags: seq<Fragment>) {
    forall i :: 0 <= i < |frags| ==> NumberFits(frags[i])
  }

  /** In a layout every fragment that pushes can be written. */
  lemma {:induction false} PushIsWritable(m: Image, k: nat)
    requires Ready(m) && NumbersFit(m.frags) && k < |m.order|
    ensures m.order[k] < |m.frags| && TargetAt(m.frags, m.order, k) < |m.order| == |m.r|
    ensures IsPush(m.frags[m.order[k]].op) ==>
      Writable(m.frags[m.order[k]], m.r[k], OffsetAt(m.t, m.frags, m.frags[m.order[k]], NeedsOf(m, k), m.r[k],
          Distance(BackendOf(m.t, m.frags, m.order), m.r, k)))
  {
    hide Position, Caps, NeedsAt, OffsetAt, BelowSolved, IsRepresentable, ChoresAre, TablesOk, AtMost;
    var f := m.frags[m.order[k]];
    assert NumberFits(f);
    if f.op == PushOffsetAddress {
      UnrelaxedAddressNeverFits(m.t, m.frags, m.order, m.r, k);
      WithinCaps(m.t, m.frags, m.order, m.r);
      OffsetInRange(m.t, m.frags, m.order, m.r, k);
      assert Fitting(BackendOf(m.t, m.frags, m.order), m.r, k);
    }
  }

  lemma {:induction false} PushIgnoresTop(t: Tables, f: Fragment, framed: bool, relaxation: nat, offset: int, at: int,
      c: Core, x: int)
    requires IsPush(f.op) && Writable(f, relaxation, offset)
    ensures SameFlow(Through(Body(t, f, framed, relaxation, offset), at, c.(eax := x)),
        Through(Body(t, f, framed, relaxation, offset), at, c))
  {
    hide Through, Body, Writable, Written, ReadFrom;
    PushBody(t, f, framed, relaxation, offset, at, c);
    PushBody(t, f, framed, relaxation, offset, at, c.(eax := x));
    ValueIgnoresTop(f, offset, at, c, x);
  }

  lemma {:induction false} ValueIgnoresTop(f: Fragment, offset: int, at: int, c: Core, x: int)
    ensures Value(f, offset, at, c.(eax := x)) == Value(f, offset, at, c)
    ensures UsedBelow(c.(eax := x), at) == UsedBelow(c, at).(eax := x)
  {
    hide Written, ReadFrom;
  }

  /** Every body that is flagged CLOB does the same whatever is in eax. */
  lemma {:induction false} BodyIgnoresTop(m: Image, k: nat, c: Core, x: int)
    requires Ready(m) && NumbersFit(m.frags) && BuiltinsClobber(m.t) && k < |m.order|
    requires FlagsOf(m.t, m.frags, m.order, |m.order|)[k].clob
    ensures SameFlow(Through(BodyAt(m, k), BodyAddress(m, k), c.(eax := x)),
        Through(BodyAt(m, k), BodyAddress(m, k), c))
  {
    hide Through, SameFlow, LaidOut, ChoresAre, TablesOk, Position, Writable, FlagsOf, NeedsAt, OffsetAt, NumberFits,
        BodyAddress;
    PushIsWritable(m, k);
    FlagAt(m.t, m.frags, m.order, |m.order|, k);
    var f := m.frags[m.order[k]];
    ClobIsPush(m.t, f);
    var offset := OffsetAt(m.t, m.frags, f, NeedsOf(m, k), m.r[k], Distance(BackendOf(m.t, m.frags, m.order), m.r, k));
    assert BodyAt(m, k) == Body(m.t, f, IsFramed(m.frags, f), m.r[k], offset);
    if f.op == BuiltinWord {
      assert BodyAt(m, k) == m.t.code(f.param);
    } else {
      PushIgnoresTop(m.t, f, IsFramed(m.frags, f), m.r[k], offset, BodyAddress(m, k), c, x);
    }
  }

  lemma {:induction false} ClobIsPush(t: Tables, f: Fragment)
    requires GetFlags(t, f).clob
    ensures f.op == BuiltinWord || IsPush(f.op)
    ensures f.op == BuiltinWord ==> t.flags(f.param).clob
  {
  }

  lemma {:induction false} SameNext(m: Image, k: nat, x: Flow, y: Flow, was: Machine, top: int)
    requires SameFlow(x, y)
    ensures NextOf(m, k, x, was.(top := top)) == NextOf(m, k, y, was)
  {
    hide BodyAt, BodyAddress, Enters;
    match y
    case On(_) => SameMachine(x.c, y.c);
    case Goes(_, _) => SameMachine(x.c, y.c);
    case Unknown =>
  }

  lemma {:induction false} SameMachine(c: Core, d: Core)
    requires c.(flags := None) == d.(flags := None)
    ensures MachineOf(c) == MachineOf(d)
  {
  }

  lemma {:induction false} ProgramClobbers(m: Image, k: nat)
    requires Ready(m) && NumbersFit(m.frags) && BuiltinsClobber(m.t)
    requires k < |m.order| && FlagsOf(m.t, m.frags, m.order, |m.order|)[k].clob
    ensures C.Clobbers(ProgramOf(m), k)
  {
    hide Through, BodyAt, BodyAddress, NextOf, FlagsOf, Ready, SameFlow, NumberFits;
    var p := ProgramOf(m);
    forall c: Machine, t: int {:trigger p.body(k, c.(top := t))} ensures p.body(k, c.(top := t)) == p.body(k, c) {
      BodyIgnoresTop(m, k, CoreOf(c), t);
      assert CoreOf(c.(top := t)) == CoreOf(c).(eax := t);
      SameNext(m, k, Through(BodyAt(m, k), BodyAddress(m, k), CoreOf(c.(top := t))),
          Through(BodyAt(m, k), BodyAddress(m, k), CoreOf(c)), c, t);
    }
  }

  lemma {:induction false} JumpsToEntries(m: Image, k: nat, c: Machine)
    ensures ProgramOf(m).body(k, c).1.Jump? ==> IsEntry(m.frags, m.order, ProgramOf(m).body(k, c).1.place)
  {
    hide Through, BodyAt, BodyAddress, FlagsOf, IsEntry;
  }

  /** The laid-out code is such code as chores may be left out of. */
  lemma {:induction false} ProgramIsOk(m: Image)
    requires Ready(m) && NumbersFit(m.frags) && BuiltinsClobber(m.t)
    ensures BodiesOk(ProgramOf(m), m.frags, m.order)
  {
    hide NextOf, FlagsOf, Ready, NumberFits, C.Clobbers, IsEntry;
    var p := ProgramOf(m);
    forall k, c: Machine | 0 <= k < |m.order| && p.body(k, c).1.Jump?
      ensures IsEntry(m.frags, m.order, p.body(k, c).1.place)
    {
      JumpsToEntries(m, k, c);
    }
    forall k | 0 <= k < |p.flags| && p.flags[k].clob ensures C.Clobbers(p, k) {
      ProgramClobbers(m, k);
    }
  }

  /** On the processor, the code with chores left out does what the code with all of them does: from an
      entry, after any number of fragments the two stop together in the same state, and wherever both
      are at an entry their states are the same. */
  lemma {:induction false} CodeMayElide(m: Image, n: nat, start: nat, c: Machine)
    requires Ready(m) && NumbersFit(m.frags) && BuiltinsClobber(m.t) && IsEntry(m.frags, m.order, start)
    ensures var full := C.Run(ProgramOf(m), false, n, C.At(start, c));
      var elided := C.Run(ProgramOf(m), true, n, C.At(start, c));
      && (full.Stopped? <==> elided.Stopped?) && (full.Stopped? ==> full == elided)
      && (full.At? && IsEntry(m.frags, m.order, full.place) ==> full == elided)
  {
    hide NextOf, FlagsOf, LaidOut, ChoresAre, TablesOk, NumberFits, IsEntry, C.Run, BodiesOk, BuiltinsClobber;
    ProgramIsOk(m);
    X86ElisionPreservesMeaning(m.t, m.frags, m.order, ProgramOf(m), n, start, c);
  }
}
