/** The x86-32 backend (x86-32_backend.c): the size switch, the "is representable" switch and the
    emitter agree, and every emitted displacement leads to its target.  The builtin table and the
    chores, which are assembled elsewhere, are parameters. */
module X86Backend {
  import opened Common
  import opened Fragments
  import opened NumCodec
  import opened LittleEndian
  import opened Relaxation
  import opened Dumping
  import opened FragmentMachine
  import opened Chores

  datatype Tables = Tables(
    code: int -> seq<byte>,
    flags: int -> Flags,
    choreA: seq<byte>, choreB: seq<byte>, choreY: seq<byte>, choreZ: seq<byte>)

  predicate AsmNumIsSmall(n: int) {
    -128 <= n <= 127
  }

  const NO_CHORES := Flags(false, false, false, false, false)
  const PUSHES := Flags(true, true, true, false, false)
  const POPS := Flags(false, false, false, true, true)

  function GetFlags(t: Tables, f: Fragment): Flags {
    match f.op
    case BuiltinWord => t.flags(f.param)
    case PushLiteral => PUSHES
    case PushDataAddress => PUSHES
    case UseVariableOrConstant => PUSHES
    case PushOffsetAddress => PUSHES
    case PushCallback => PUSHES
    case DeclareConstant => POPS
    case _ => NO_CHORES
  }

  // ----- numbers in machine code -----

  function I8(x: int): seq<byte> {
    [(x % 256) as byte]
  }

  function FromI8(b: byte): int {
    if b < 128 then b as int else b as int - 256
  }

  function I8OrLe32(x: int): seq<byte> {
    if AsmNumIsSmall(x) then I8(x) else Le32(x)
  }

  lemma {:induction false} I8Back(x: int)
    requires AsmNumIsSmall(x)
    ensures |I8(x)| == 1 && FromI8(I8(x)[0]) == x
  {
  }

  // ----- one fragment -----

  /** The size without the chores.  `framed` says that the word has flags, and so a frame
      pointer to set up and tear down. */
  function BodySize(t: Tables, f: Fragment, framed: bool, relaxation: nat): nat {
    match f.op
    case BuiltinWord => |t.code(f.param)|
    case DefinedWord => 5
    case RuntimeWord => 3 + if AsmNumIsSmall((f.param + 1) * 4) then 3 else 6
    case PushLiteral => if f.param != 0 then 5 else 2
    case ExitWord => 1 + if framed then 1 else 0
    case DefinedWordLocation => if framed then 3 else 0
    case PushDataAddress => 3 + if f.param == 0 then 0 else if AsmNumIsSmall(f.param) then 3 else 5
    case DeclareVariable => 9 + if AsmNumIsSmall(-f.param * 4) then 3 else 6
    case UseVariableOrConstant => if AsmNumIsSmall(-f.param * 4) then 3 else 6
    case Halt => 1
    case BranchLocation => 0
    case BranchIfZero => 8 + if relaxation == 0 then 2 else 6
    case Branch => if relaxation == 0 then 2 else 5
    case Do => 9
    case Loop => 9 + if relaxation == 0 then 2 else 6
    case PushOffsetAddress => 6 + if relaxation == 0 then 0 else if relaxation == 1 then 3 else 5
    case PushCallback => 3 + if AsmNumIsSmall(f.param * 4) then 3 else 6
    case DeclareConstant => if AsmNumIsSmall(-f.param * 4) then 3 else 6
    case Execute => 9
    case ThreadCreate => 6
    case ThreadJoin => 9
    case Entry => 0
  }

  /** Bytes around the body: what comes before it and what comes after. */
  function Prologue(t: Tables, needs: Flags): seq<byte> {
    (if needs.a then t.choreA else []) + (if needs.b then t.choreB else [])
  }

  function Epilogue(t: Tables, needs: Flags): seq<byte> {
    (if needs.y then t.choreY else []) + (if needs.z then t.choreZ else [])
  }

  /** Where the displacement of the fragment counts from, as a distance from its own start. */
  function Anchor(t: Tables, f: Fragment, needs: Flags, size: nat): int {
    match f.op
    case Loop => size - 3
    case PushOffsetAddress => |Prologue(t, needs)| + 5
    case _ => size
  }

  predicate IsRepresentable(f: Fragment, relaxation: nat, offset: int) {
    match f.op
    case BranchIfZero => relaxation == 0 ==> AsmNumIsSmall(offset)
    case Branch => relaxation == 0 ==> AsmNumIsSmall(offset)
    case Loop => relaxation == 0 ==> AsmNumIsSmall(offset)
    case PushOffsetAddress => if relaxation == 0 then offset == 0 else relaxation == 1 ==> AsmNumIsSmall(offset)
    case _ => true
  }

  function Displacement(relaxation: nat, offset: int): seq<byte> {
    if relaxation == 0 then I8(offset) else Le32(offset)
  }

  /** The body; `offset` is the distance from the anchor to the target. */
  function Body(t: Tables, f: Fragment, framed: bool, relaxation: nat, offset: int): seq<byte> {
    match f.op
    case BuiltinWord => t.code(f.param)
    case DefinedWord => [0xe8] + Le32(offset)
    case RuntimeWord =>
      var n := (f.param + 1) * 4;
      [0x8b, if AsmNumIsSmall(n) then 0x4f else 0x8f] + I8OrLe32(n) + [0xff, 0x56, 0x24]
    case PushLiteral => if f.param != 0 then [0xb8] + Le32(f.param) else [0x31, 0xc0]
    case ExitWord => (if framed then [0xc9] else []) + [0xc3]
    case DefinedWordLocation => if framed then [0x55, 0x89, 0xe5] else []
    case PushDataAddress =>
      [0x8b, 0x46, 0x10]
      + if f.param == 0 then [] else (if AsmNumIsSmall(f.param) then [0x83, 0xc0] else [0x05]) + I8OrLe32(f.param)
    case DeclareVariable =>
      var n := -f.param * 4;
      [0x83, 0xc2, 0x03, 0x83, 0xe2, 0xfc] + [0x89, if AsmNumIsSmall(n) then 0x57 else 0x97] + I8OrLe32(n)
      + [0x83, 0xc2, 0x04]
    case UseVariableOrConstant =>
      var n := -f.param * 4;
      [0x8b, if AsmNumIsSmall(n) then 0x47 else 0x87] + I8OrLe32(n)
    case Halt => [0xc3]
    case BranchLocation => []
    case BranchIfZero =>
      [0x83, 0xeb, 0x04, 0x85, 0xc0, 0x8b, 0x43, 0x04]
      + (if relaxation == 0 then [0x74] else [0x0f, 0x84]) + Displacement(relaxation, offset)
    case Branch => (if relaxation == 0 then [0xeb] else [0xe9]) + Displacement(relaxation, offset)
    case Do => [0xff, 0x33, 0x50, 0x8b, 0x43, 0xfc, 0x83, 0xeb, 0x08]
    case Loop =>
      [0x59, 0x41, 0x3b, 0x0c, 0x24, 0x51]
      + (if relaxation == 0 then [0x7c] else [0x0f, 0x8c]) + Displacement(relaxation, offset)
      + [0x83, 0xc4, 0x08]
    case PushOffsetAddress =>
      [0xe8, 0x00, 0x00, 0x00, 0x00, 0x58]
      + if relaxation == 0 then [] else if relaxation == 1 then [0x83, 0xc0] + I8(offset) else [0x05] + Le32(offset)
    case PushCallback =>
      var n := f.param * 4;
      [0x8b, 0x46, 0x28, 0x8b, if AsmNumIsSmall(n) then 0x40 else 0x80] + I8OrLe32(n)
    case DeclareConstant =>
      var n := -f.param * 4;
      [0x89, if AsmNumIsSmall(n) then 0x47 else 0x87] + I8OrLe32(n)
    case Execute => [0x89, 0xc1, 0x8b, 0x03, 0x83, 0xeb, 0x04, 0xff, 0xd1]
    case ThreadCreate => [0x8b, 0x4e, 44, 0xff, 0x56, 0x24]
    case ThreadJoin => [0x8b, 0x4e, 44, 0x83, 0xc1, 0x08, 0xff, 0x56, 0x24]
    case Entry => []
  }

  lemma {:induction false} LengthOfNumbers(x: int)
    ensures |Le32(x)| == 4 && |I8(x)| == 1 && |I8OrLe32(x)| == if AsmNumIsSmall(x) then 1 else 4
  {
    LowBytesLength(x % TWO_32, 4);
  }

  predicate HasDisplacement(op: Opcode) {
    op in {DefinedWord, BranchIfZero, Branch, Loop, PushOffsetAddress}
  }

  lemma {:induction false} DisplacedLength(t: Tables, f: Fragment, framed: bool, relaxation: nat, offset: int)
    requires HasDisplacement(f.op)
    ensures |Body(t, f, framed, relaxation, offset)| == BodySize(t, f, framed, relaxation)
  {
    hide Le32, I8, I8OrLe32, AsmNumIsSmall;
    LengthOfNumbers(offset);
  }

  lemma {:induction false} OtherLength(t: Tables, f: Fragment, framed: bool, relaxation: nat, offset: int)
    requires !HasDisplacement(f.op)
    ensures |Body(t, f, framed, relaxation, offset)| == BodySize(t, f, framed, relaxation)
  {
    hide Le32, I8, I8OrLe32, AsmNumIsSmall, Displacement;
    LengthOfNumbers(f.param);
    LengthOfNumbers((f.param + 1) * 4);
    LengthOfNumbers(f.param * 4);
    LengthOfNumbers(-f.param * 4);
  }

  /** The emitter writes exactly what the size switch reserves. */
  lemma {:induction false} BodyLength(t: Tables, f: Fragment, framed: bool, relaxation: nat, offset: int)
    ensures |Body(t, f, framed, relaxation, offset)| == BodySize(t, f, framed, relaxation)
  {
    hide Body, BodySize;
    if HasDisplacement(f.op) {
      DisplacedLength(t, f, framed, relaxation, offset);
    } else {
      OtherLength(t, f, framed, relaxation, offset);
    }
  }

  // ----- as a backend of the relaxation loop -----

  predicate Known(frags: seq<Fragment>, order: seq<nat>, k: nat) {
    k < |order| && order[k] < |frags|
  }

  /** The flags of the places before n. */
  function FlagsOf(t: Tables, frags: seq<Fragment>, order: seq<nat>, n: nat): (r: seq<Flags>)
    ensures |r| == n
  {
    if n == 0 then []
    else
      FlagsOf(t, frags, order, n - 1)
      + [if Known(frags, order, n - 1) then GetFlags(t, frags[order[n - 1]]) else NO_CHORES]
  }

  function NeedsAt(t: Tables, frags: seq<Fragment>, order: seq<nat>, k: nat): Flags {
    if k < |order| then NeededChores(FlagsOf(t, frags, order, |order|), k) else NO_CHORES
  }

  /** Whether the fragment's word keeps loop cells or makes calls: the parameter of its location. */
  function IsFramed(frags: seq<Fragment>, f: Fragment): bool {
    if f.op == DefinedWordLocation then f.loops || f.calls
    else f.op == ExitWord && 0 <= f.param < |frags| && (frags[f.param].loops || frags[f.param].calls)
  }

  function Size(t: Tables, frags: seq<Fragment>, f: Fragment, needs: Flags, relaxation: nat): nat {
    |Prologue(t, needs)| + BodySize(t, f, IsFramed(frags, f), relaxation) + |Epilogue(t, needs)|
  }

  function SizeAt(t: Tables, frags: seq<Fragment>, order: seq<nat>, k: nat, relaxation: nat): nat {
    if Known(frags, order, k) then Size(t, frags, frags[order[k]], NeedsAt(t, frags, order, k), relaxation) else 0
  }

  function TargetAt(frags: seq<Fragment>, order: seq<nat>, k: nat): nat {
    if Known(frags, order, k) && HasDisplacement(frags[order[k]].op) then IndexOf(order, frags[order[k]].param) else k
  }

  function OffsetAt(t: Tables, frags: seq<Fragment>, f: Fragment, needs: Flags, relaxation: nat, distance: int): int {
    distance - Anchor(t, f, needs, Size(t, frags, f, needs, relaxation))
  }

  predicate FitsAt(t: Tables, frags: seq<Fragment>, order: seq<nat>, k: nat, relaxation: nat, distance: int) {
    Known(frags, order, k) ==>
      IsRepresentable(frags[order[k]], relaxation,
          OffsetAt(t, frags, frags[order[k]], NeedsAt(t, frags, order, k), relaxation, distance))
  }

  function MostRelaxed(op: Opcode): nat {
    if op in {BranchIfZero, Branch, Loop} then 1 else if op == PushOffsetAddress then 2 else 0
  }

  function CapAt(frags: seq<Fragment>, order: seq<nat>, k: nat): nat {
    if Known(frags, order, k) then MostRelaxed(frags[order[k]].op) else 0
  }

  function BackendOf(t: Tables, frags: seq<Fragment>, order: seq<nat>): Backend {
    Backend((k: nat, x: nat) => SizeAt(t, frags, order, k, x), (k: nat) => TargetAt(frags, order, k),
            (k: nat, x: nat, d: int) => FitsAt(t, frags, order, k, x, d), (k: nat) => CapAt(frags, order, k))
  }

  /** Every place holds a fragment, every displacement has a placed target, and the code is below
      2^31 even at its largest. */
  ghost predicate Sound(t: Tables, frags: seq<Fragment>, order: seq<nat>) {
    && (forall k :: 0 <= k < |order| ==> order[k] < |frags|)
    && (forall k :: 0 <= k < |order| ==> TargetAt(frags, order, k) < |order|)
    && Position(BackendOf(t, frags, order), Caps(BackendOf(t, frags, order), |order|), |order|) < LIMIT
  }

  lemma {:induction false} NearerFits(t: Tables, frags: seq<Fragment>, f: Fragment, needs: Flags, x: nat, far: int,
      near: int, after: bool)
    requires IsRepresentable(f, x, OffsetAt(t, frags, f, needs, x, far))
    requires if after then Size(t, frags, f, needs, x) <= near <= far else far <= near <= 0
    ensures IsRepresentable(f, x, OffsetAt(t, frags, f, needs, x, near))
  {
    hide Prologue, Epilogue, IsFramed;
  }

  lemma {:induction false} CapFits(t: Tables, frags: seq<Fragment>, f: Fragment, offset: int)
    ensures IsRepresentable(f, MostRelaxed(f.op), offset)
  {
  }

  lemma {:induction false} SizeGrows(t: Tables, frags: seq<Fragment>, f: Fragment, needs: Flags, x: nat, y: nat)
    requires x <= y
    ensures Size(t, frags, f, needs, x) <= Size(t, frags, f, needs, y)
  {
    hide Prologue, Epilogue, IsFramed, AsmNumIsSmall;
  }

  /** The relaxation loop may be run over the x86 backend, and so it halts at the smallest code. */
  lemma {:induction false} X86IsLawful(t: Tables, frags: seq<Fragment>, order: seq<nat>)
    requires Sound(t, frags, order)
    ensures Lawful(BackendOf(t, frags, order), |order|)
  {
    hide Size, Position, Caps, IsRepresentable, OffsetAt, NeedsAt, HasDisplacement, MostRelaxed;
    var b, n := BackendOf(t, frags, order), |order|;
    forall k, x, y | 0 <= k < n && x <= y ensures b.size(k, x) <= b.size(k, y) {
      SizeGrows(t, frags, frags[order[k]], NeedsAt(t, frags, order, k), x, y);
    }
    forall k, x, far, near | 0 <= k < n && b.fits(k, x, far)
        && (if b.target(k) > k then b.size(k, x) <= near <= far else far <= near <= 0)
      ensures b.fits(k, x, near)
    {
      NearerFits(t, frags, frags[order[k]], NeedsAt(t, frags, order, k), x, far, near, b.target(k) > k);
    }
    forall k, d | 0 <= k < n && -LIMIT <= d < LIMIT ensures b.fits(k, b.cap(k), d) {
      CapFits(t, frags, frags[order[k]], OffsetAt(t, frags, frags[order[k]], NeedsAt(t, frags, order, k), b.cap(k), d));
    }
  }

  /** No layout leaves a pushed word address without its `add`: the address that `call` pushes
      lies inside the fragment, and targets are at the start of fragments. */
  lemma {:induction false} UnrelaxedAddressNeverFits(t: Tables, frags: seq<Fragment>, order: seq<nat>, r: seq<nat>,
      k: nat)
    requires Sound(t, frags, order) && |r| == |order| && Solved(BackendOf(t, frags, order), r)
    requires k < |order| && frags[order[k]].op == PushOffsetAddress
    ensures r[k] > 0
  {
    hide Prologue, Epilogue, NeedsAt, Position, Caps;
    var b, j := BackendOf(t, frags, order), TargetAt(frags, order, k);
    assert Fitting(b, r, k);
    X86IsLawful(t, frags, order);
    if j > k { OwnSize(b, r, k, j); } else { Spreads(b, r, r, j, k); }
  }

  // ----- the emitted code -----

  /** The bytes of place k: chores that are needed, body, chores that are needed. */
  ghost function Chunk(t: Tables, frags: seq<Fragment>, order: seq<nat>, r: seq<nat>, k: nat): seq<byte> {
    if Known(frags, order, k) && |r| == |order| && TargetAt(frags, order, k) < |order|
    then Emitted(t, frags, frags[order[k]], NeedsAt(t, frags, order, k), r[k],
        Distance(BackendOf(t, frags, order), r, k))
    else []
  }

  function Emitted(t: Tables, frags: seq<Fragment>, f: Fragment, needs: Flags, relaxation: nat,
      distance: int): seq<byte> {
    Prologue(t, needs)
    + Body(t, f, IsFramed(frags, f), relaxation, OffsetAt(t, frags, f, needs, relaxation, distance))
    + Epilogue(t, needs)
  }

  ghost function Chunks(t: Tables, frags: seq<Fragment>, order: seq<nat>, r: seq<nat>): nat -> seq<byte> {
    (k: nat) => Chunk(t, frags, order, r, k)
  }

  ghost function CodeBytes(t: Tables, frags: seq<Fragment>, order: seq<nat>, r: seq<nat>): seq<byte> {
    Joined(Chunks(t, frags, order, r), |order|)
  }

  lemma {:induction false} EmittedLength(t: Tables, frags: seq<Fragment>, f: Fragment, needs: Flags, relaxation: nat,
      distance: int)
    ensures |Emitted(t, frags, f, needs, relaxation, distance)| == Size(t, frags, f, needs, relaxation)
  {
    hide Body, BodySize, OffsetAt, Prologue, Epilogue;
    BodyLength(t, f, IsFramed(frags, f), relaxation, OffsetAt(t, frags, f, needs, relaxation, distance));
  }

  /** At every place the dump writes exactly `fragment_bin_size` bytes, and they stand at the
      fragment's position in the code section. */
  lemma {:induction false} EmissionAgreesWithSizing(t: Tables, frags: seq<Fragment>, order: seq<nat>, r: seq<nat>,
      k: nat)
    requires Sound(t, frags, order) && |r| == |order| && k < |order|
    ensures var b, p := BackendOf(t, frags, order), Position(BackendOf(t, frags, order), r, k);
      && |Chunk(t, frags, order, r, k)| == SizeAt(t, frags, order, k, r[k])
      && p + |Chunk(t, frags, order, r, k)| <= |CodeBytes(t, frags, order, r)| == Position(b, r, |order|)
      && CodeBytes(t, frags, order, r)[p..p + |Chunk(t, frags, order, r, k)|] == Chunk(t, frags, order, r, k)
  {
    hide Chunk, Sound, SizeAt, Joined, Position;
    var b, chunks := BackendOf(t, frags, order), Chunks(t, frags, order, r);
    forall j | 0 <= j < |r| ensures |chunks(j)| == b.size(j, r[j]) {
      ChunkLength(t, frags, order, r, j);
    }
    JoinedLength(b, r, chunks, |order|);
    ChunkStandsIn(b, r, chunks, |order|, k);
  }

  lemma {:induction false} ChunkLength(t: Tables, frags: seq<Fragment>, order: seq<nat>, r: seq<nat>, k: nat)
    requires Sound(t, frags, order) && |r| == |order| && k < |order|
    ensures |Chunk(t, frags, order, r, k)| == SizeAt(t, frags, order, k, r[k])
  {
    hide Size, Emitted, Position, Caps, NeedsAt;
    assert order[k] < |frags| && TargetAt(frags, order, k) < |order|;
    EmittedLength(t, frags, frags[order[k]], NeedsAt(t, frags, order, k), r[k],
        Distance(BackendOf(t, frags, order), r, k));
  }

  // ----- what the processor makes of it -----

  /** Where a jump or call instruction at p leads (jz, jl, jmp, call of the Intel 64 manual). */
  function JumpTarget(code: seq<byte>, p: nat): Option<int> {
    if p + 2 <= |code| && code[p] in {0x74, 0x7c, 0xeb} then Some(p + 2 + FromI8(code[p + 1]))
    else if p + 6 <= |code| && code[p] == 0x0f && code[p + 1] in {0x84, 0x8c} then Some(p + 6 + FromLe32(code[p + 2..]))
    else if p + 5 <= |code| && code[p] in {0xe8, 0xe9} then Some(p + 5 + FromLe32(code[p + 1..]))
    else None
  }

  /** What `call .L0; .L0: pop eax; add eax, n` at p leaves in the register. */
  function PoppedAddress(code: seq<byte>, p: nat): Option<int> {
    if p + 9 <= |code| && code[p..p + 6] == [0xe8, 0x00, 0x00, 0x00, 0x00, 0x58]
        && code[p + 6..p + 8] == [0x83, 0xc0] then
      Some(p + 5 + FromI8(code[p + 8]))
    else if p + 11 <= |code| && code[p..p + 6] == [0xe8, 0x00, 0x00, 0x00, 0x00, 0x58] && code[p + 6] == 0x05 then
      Some(p + 5 + FromLe32(code[p + 7..]))
    else None
  }

  /** The jump instruction of a fragment follows this many bytes of its body. */
  function JumpAt(op: Opcode): nat {
    if op == BranchIfZero then 8 else if op == Loop then 6 else 0
  }

  predicate Jumps(op: Opcode) {
    op in {BranchIfZero, Branch, Loop, DefinedWord}
  }

  lemma {:induction false} ShortJump(s: seq<byte>, q: nat, op: byte, x: int)
    requires AsmNumIsSmall(x) && op in {0x74, 0x7c, 0xeb} && q + 2 <= |s| && s[q] == op && s[q + 1..q + 2] == I8(x)
    ensures JumpTarget(s, q) == Some(q + 2 + x)
  {
    I8Back(x);
    assert s[q + 1] == I8(x)[0];
  }

  lemma {:induction false} LongJump(s: seq<byte>, q: nat, op: byte, x: int)
    requires IsInt32(x) && op in {0x84, 0x8c} && q + 6 <= |s| && s[q] == 0x0f && s[q + 1] == op
        && s[q + 2..q + 6] == Le32(x)
    ensures JumpTarget(s, q) == Some(q + 6 + x)
  {
    hide Le32, FromLe32;
    Le32Read(s, q + 2, x);
  }

  lemma {:induction false} NearJump(s: seq<byte>, q: nat, op: byte, x: int)
    requires IsInt32(x) && op in {0xe8, 0xe9} && q + 5 <= |s| && s[q] == op && s[q + 1..q + 5] == Le32(x)
    ensures JumpTarget(s, q) == Some(q + 5 + x)
  {
    hide Le32, FromLe32;
    Le32Read(s, q + 1, x);
  }

  lemma {:induction false} BodyShortJump(t: Tables, f: Fragment, framed: bool, offset: int)
    requires f.op in {BranchIfZero, Branch, Loop} && AsmNumIsSmall(offset)
    ensures var s := Body(t, f, framed, 0, offset);
      JumpTarget(s, JumpAt(f.op)) == Some(|s| - (if f.op == Loop then 3 else 0) + offset)
  {
    hide I8, JumpTarget, AsmNumIsSmall;
    LengthOfNumbers(offset);
    var s, q := Body(t, f, framed, 0, offset), JumpAt(f.op);
    assert s[q + 1..q + 2] == I8(offset);
    ShortJump(s, q, s[q], offset);
  }

  lemma {:induction false} BodyWideJump(t: Tables, f: Fragment, framed: bool, x: nat, offset: int)
    requires f.op in {BranchIfZero, Loop} && IsInt32(offset) && x > 0
    ensures var s := Body(t, f, framed, x, offset);
      JumpTarget(s, JumpAt(f.op)) == Some(|s| - (if f.op == Loop then 3 else 0) + offset)
  {
    hide Le32, JumpTarget, IsInt32;
    LengthOfNumbers(offset);
    var s, q := Body(t, f, framed, x, offset), JumpAt(f.op);
    assert s[q + 2..q + 6] == Le32(offset);
    LongJump(s, q, s[q + 1], offset);
  }

  lemma {:induction false} BodyNearJump(t: Tables, f: Fragment, framed: bool, x: nat, offset: int)
    requires ((f.op == Branch && x > 0) || f.op == DefinedWord) && IsInt32(offset)
    ensures var s := Body(t, f, framed, x, offset); JumpTarget(s, 0) == Some(|s| + offset)
  {
    hide Le32, JumpTarget, IsInt32;
    LengthOfNumbers(offset);
    var s := Body(t, f, framed, x, offset);
    assert s[1..5] == Le32(offset);
    NearJump(s, 0, s[0], offset);
  }

  /** The body's jump, seen from the start of the body. */
  lemma {:induction false} BodyJump(t: Tables, f: Fragment, framed: bool, x: nat, offset: int)
    requires Jumps(f.op) && IsInt32(offset) && IsRepresentable(f, x, offset)
    ensures var s := Body(t, f, framed, x, offset);
      JumpTarget(s, JumpAt(f.op)) == Some(|s| - (if f.op == Loop then 3 else 0) + offset)
  {
    hide Body, JumpTarget, AsmNumIsSmall;
    if f.op == DefinedWord || (f.op == Branch && x > 0) { BodyNearJump(t, f, framed, x, offset); }
    else if x == 0 { BodyShortJump(t, f, framed, offset); }
    else { BodyWideJump(t, f, framed, x, offset); }
  }

  lemma {:induction false} JumpMoves(code: seq<byte>, p: nat, s: seq<byte>, q: nat)
    requires p + |s| <= |code| && code[p..p + |s|] == s && JumpTarget(s, q).Some?
    ensures JumpTarget(code, p + q) == Some(p + JumpTarget(s, q).value)
  {
    hide FromI8, FromLow;
    assert forall i :: 0 <= i < |s| ==> code[p + i] == s[i];
    assert q + 6 <= |s| ==> code[p + q + 2..][..4] == s[q + 2..][..4];
    assert q + 5 <= |s| ==> code[p + q + 1..][..4] == s[q + 1..][..4];
  }

  lemma {:induction false} BodyAddress(t: Tables, f: Fragment, framed: bool, x: nat, offset: int)
    requires f.op == PushOffsetAddress && IsInt32(offset) && x > 0 && IsRepresentable(f, x, offset)
    ensures PoppedAddress(Body(t, f, framed, x, offset), 0) == Some(5 + offset)
  {
    hide Le32, I8, AsmNumIsSmall, FromLe32, FromI8;
    LengthOfNumbers(offset);
    var s := Body(t, f, framed, x, offset);
    assert s[0..6] == [0xe8, 0x00, 0x00, 0x00, 0x00, 0x58];
    if x == 1 {
      I8Back(offset);
      assert s[6..8] == [0x83, 0xc0] && s[8] == I8(offset)[0];
    } else {
      assert s[6] == 0x05 && s[7..11] == Le32(offset);
      assert s[6..8][0] == s[6];
      Le32Read(s, 7, offset);
    }
  }

  lemma {:induction false} AddressMoves(code: seq<byte>, p: nat, s: seq<byte>)
    requires p + |s| <= |code| && code[p..p + |s|] == s && PoppedAddress(s, 0).Some?
    ensures PoppedAddress(code, p) == Some(p + PoppedAddress(s, 0).value)
  {
    hide FromI8, FromLow;
    assert forall i :: 0 <= i < |s| ==> code[p + i] == s[i];
    assert code[p..p + 6] == s[0..6] && code[p + 6..p + 8] == s[6..8];
    assert |s| >= 11 ==> code[p + 7..][..4] == s[7..][..4];
  }

  // ----- landing -----

  lemma {:induction false} NoFlagsNoChores(t: Tables, frags: seq<Fragment>, order: seq<nat>, k: nat)
    requires Known(frags, order, k) && Jumps(frags[order[k]].op)
    ensures Prologue(t, NeedsAt(t, frags, order, k)) == [] && Epilogue(t, NeedsAt(t, frags, order, k)) == []
  {
    FlagAt(t, frags, order, |order|, k);
  }

  lemma {:induction false} FlagAt(t: Tables, frags: seq<Fragment>, order: seq<nat>, n: nat, k: nat)
    requires k < n
    ensures FlagsOf(t, frags, order, n)[k] == if Known(frags, order, k) then GetFlags(t, frags[order[k]]) else NO_CHORES
  {
    hide GetFlags;
    if k < n - 1 { FlagAt(t, frags, order, n - 1, k); }
  }

  /** Every displacement is a 32-bit number. */
  lemma {:induction false} OffsetInRange(t: Tables, frags: seq<Fragment>, order: seq<nat>, r: seq<nat>, k: nat)
    requires Sound(t, frags, order) && |r| == |order| && AtMost(r, Caps(BackendOf(t, frags, order), |order|))
        && k < |order|
    requires HasDisplacement(frags[order[k]].op)
    ensures TargetAt(frags, order, k) < |order|
    ensures IsInt32(OffsetAt(t, frags, frags[order[k]], NeedsAt(t, frags, order, k), r[k],
        Distance(BackendOf(t, frags, order), r, k)))
  {
    hide Prologue, Epilogue, NeedsAt, Position, Caps, IsFramed;
    var b, n, j := BackendOf(t, frags, order), |order|, TargetAt(frags, order, k);
    X86IsLawful(t, frags, order);
    FirstPosition(b, r);
    FirstPosition(b, Caps(b, n));
    Spreads(b, r, Caps(b, n), 0, n);
    Spreads(b, r, r, 0, j);
    Spreads(b, r, r, j, n);
    Spreads(b, r, r, 0, k);
    Spreads(b, r, r, k + 1, n);
    NextPositionOf(b, r, k);
  }

  lemma {:induction false} NextPositionOf(b: Backend, r: seq<nat>, k: nat)
    requires k < |r|
    ensures Position(b, r, k + 1) == Position(b, r, k) + b.size(k, r[k])
  {
  }

  /** A layout that the relaxation loop can end with. */
  ghost predicate LaidOut(t: Tables, frags: seq<Fragment>, order: seq<nat>, r: seq<nat>) {
    var b := BackendOf(t, frags, order);
    Sound(t, frags, order) && |r| == |order| && Solved(b, r) && BelowSolved(b, r)
  }

  lemma {:induction false} WithinCaps(t: Tables, frags: seq<Fragment>, order: seq<nat>, r: seq<nat>)
    requires LaidOut(t, frags, order, r)
    ensures AtMost(r, Caps(BackendOf(t, frags, order), |order|))
  {
    hide Sound, Solved, AtMost, Lawful;
    X86IsLawful(t, frags, order);
    CapsSolve(BackendOf(t, frags, order), |order|);
  }

  // ----- what the layout is smallest among -----

  /** How far the target of place k is from the address that its displacement counts from: the end
      of a jump or call, the three bytes before the end of a loop, the address that a pushed word
      address starts from. */
  ghost function Reach(t: Tables, frags: seq<Fragment>, order: seq<nat>, r: seq<nat>, k: nat): int
    requires k < |order| == |r| && order[k] < |frags| && TargetAt(frags, order, k) < |order|
  {
    var b, op := BackendOf(t, frags, order), frags[order[k]].op;
    var from :=
      if op == Loop then Position(b, r, k + 1) - 3
      else if op == PushOffsetAddress then Position(b, r, k) + |Prologue(t, NeedsAt(t, frags, order, k))| + 5
      else Position(b, r, k + 1);
    Position(b, r, TargetAt(frags, order, k)) - from
  }

  /** Every short form is used only where it reaches: one signed byte for a jump, none or one
      signed byte for a word address. */
  ghost predicate InRanges(t: Tables, frags: seq<Fragment>, order: seq<nat>, r: seq<nat>) {
    && |r| == |order|
    && forall k :: 0 <= k < |order| && order[k] < |frags| ==>
         && TargetAt(frags, order, k) < |order|
         && Reaches(frags[order[k]].op, r[k], Reach(t, frags, order, r, k))
  }

  predicate Reaches(op: Opcode, x: nat, reach: int) {
    && (op in {BranchIfZero, Branch, Loop} && x == 0 ==> -128 <= reach < 128)
    && (op == PushOffsetAddress && x == 0 ==> reach == 0)
    && (op == PushOffsetAddress && x == 1 ==> -128 <= reach < 128)
  }

  lemma {:induction false} FittingExactly(t: Tables, frags: seq<Fragment>, order: seq<nat>, r: seq<nat>, k: nat)
    requires Sound(t, frags, order) && k < |order| == |r|
    ensures order[k] < |frags| && TargetAt(frags, order, k) < |order|
    ensures Fitting(BackendOf(t, frags, order), r, k)
       <==> Reaches(frags[order[k]].op, r[k], Reach(t, frags, order, r, k))
  {
    hide Size, Prologue, NeedsAt, Position, Caps, HasDisplacement;
    NextPositionOf(BackendOf(t, frags, order), r, k);
    SizeIs(t, frags, order, k, r[k]);
  }

  /** A layout is solved if and only if every short form reaches. */
  lemma {:induction false} SolvedExactly(t: Tables, frags: seq<Fragment>, order: seq<nat>, r: seq<nat>)
    requires Sound(t, frags, order) && |r| == |order|
    ensures Solved(BackendOf(t, frags, order), r) <==> InRanges(t, frags, order, r)
  {
    hide Fitting, Reach, Sound, Reaches, TargetAt;
    forall k | 0 <= k < |order|
      ensures order[k] < |frags| && TargetAt(frags, order, k) < |order|
      ensures Fitting(BackendOf(t, frags, order), r, k)
         <==> Reaches(frags[order[k]].op, r[k], Reach(t, frags, order, r, k))
    {
      FittingExactly(t, frags, order, r, k);
    }
  }

  /** No layout whose short forms reach has a smaller relaxation, an earlier position or a shorter
      code anywhere. */
  ghost predicate Smallest(t: Tables, frags: seq<Fragment>, order: seq<nat>, r: seq<nat>) {
    InRanges(t, frags, order, r) && forall s :: InRanges(t, frags, order, s) ==> NoLater(t, frags, order, r, s)
  }

  ghost predicate NoLater(t: Tables, frags: seq<Fragment>, order: seq<nat>, r: seq<nat>, s: seq<nat>) {
    && |r| == |order| == |s| && (forall k :: 0 <= k < |order| ==> r[k] <= s[k])
    && forall k :: 0 <= k <= |order| ==>
         Position(BackendOf(t, frags, order), r, k) <= Position(BackendOf(t, frags, order), s, k)
  }

  lemma {:induction false} LeastIsNoLater(t: Tables, frags: seq<Fragment>, order: seq<nat>, r: seq<nat>, s: seq<nat>)
    requires Lawful(BackendOf(t, frags, order), |order|) && |r| == |order| == |s|
    requires BelowSolved(BackendOf(t, frags, order), r) && Solved(BackendOf(t, frags, order), s)
    ensures NoLater(t, frags, order, r, s)
  {
    hide Lawful, BelowSolved, Solved, Position;
    forall k | 0 <= k <= |order|
      ensures Position(BackendOf(t, frags, order), r, k) <= Position(BackendOf(t, frags, order), s, k)
    {
      LeastIsSmallest(BackendOf(t, frags, order), r, s, k);
    }
    LeastIsSmallest(BackendOf(t, frags, order), r, s, 0);
  }

  lemma {:induction false} InRangesLength(t: Tables, frags: seq<Fragment>, order: seq<nat>, r: seq<nat>)
    requires InRanges(t, frags, order, r)
    ensures |r| == |order|
  {
    hide Reaches, TargetAt, Reach;
  }

  /** What the relaxation loop finds is the smallest x86 code. */
  lemma {:induction false} LaidOutIsSmallest(t: Tables, frags: seq<Fragment>, order: seq<nat>, r: seq<nat>)
    requires LaidOut(t, frags, order, r)
    ensures Smallest(t, frags, order, r)
  {
    hide Sound, InRanges, Solved, BelowSolved, Lawful, NoLater;
    X86IsLawful(t, frags, order);
    SolvedExactly(t, frags, order, r);
    forall s | InRanges(t, frags, order, s) ensures NoLater(t, frags, order, r, s) {
      InRangesLength(t, frags, order, s);
      SolvedExactly(t, frags, order, s);
      LeastIsNoLater(t, frags, order, r, s);
    }
  }

  /** Place k emits its body between its chores. */
  lemma {:induction false} BodyStands(t: Tables, frags: seq<Fragment>, order: seq<nat>, r: seq<nat>, k: nat)
      returns (f: Fragment, offset: int, s: seq<byte>)
    requires LaidOut(t, frags, order, r) && k < |order| && order[k] < |frags| && HasDisplacement(frags[order[k]].op)
    ensures f == frags[order[k]] && s == Body(t, f, IsFramed(frags, f), r[k], offset)
    ensures IsInt32(offset) && IsRepresentable(f, r[k], offset)
    ensures var b, p := BackendOf(t, frags, order),
        Position(BackendOf(t, frags, order), r, k) + |Prologue(t, NeedsAt(t, frags, order, k))|;
      && IndexOf(order, f.param) < |order|
      && Position(b, r, IndexOf(order, f.param)) == Position(b, r, k) + offset
         + Anchor(t, f, NeedsAt(t, frags, order, k), SizeAt(t, frags, order, k, r[k]))
      && p + |s| <= |CodeBytes(t, frags, order, r)| && CodeBytes(t, frags, order, r)[p..p + |s|] == s
  {
    hide Sound, Body, BodySize, Position, NeedsAt, CodeBytes, BelowSolved, AtMost, Caps, IsRepresentable, Prologue,
        Epilogue, Anchor, SizeAt, IsFramed;
    var b, needs := BackendOf(t, frags, order), NeedsAt(t, frags, order, k);
    WithinCaps(t, frags, order, r);
    OffsetInRange(t, frags, order, r, k);
    EmissionAgreesWithSizing(t, frags, order, r, k);
    assert Fitting(b, r, k);
    f := frags[order[k]];
    offset := OffsetAt(t, frags, f, needs, r[k], Distance(b, r, k));
    s := Body(t, f, IsFramed(frags, f), r[k], offset);
    SizeIs(t, frags, order, k, r[k]);
    InMiddle(CodeBytes(t, frags, order, r), Position(b, r, k), Prologue(t, needs), s, Epilogue(t, needs));
  }

  lemma {:induction false} SizeIs(t: Tables, frags: seq<Fragment>, order: seq<nat>, k: nat, x: nat)
    requires Known(frags, order, k)
    ensures SizeAt(t, frags, order, k, x) == Size(t, frags, frags[order[k]], NeedsAt(t, frags, order, k), x)
  {
  }

  lemma {:induction false} InMiddle(code: seq<byte>, p: nat, x: seq<byte>, s: seq<byte>, y: seq<byte>)
    requires p + |x + s + y| <= |code| && code[p..p + |x + s + y|] == x + s + y
    ensures p + |x| + |s| <= |code| && code[p + |x|..p + |x| + |s|] == s
  {
    var all := x + s + y;
    assert |all| == |x| + |s| + |y|;
    forall i | 0 <= i < |s| ensures code[p + |x|..p + |x| + |s|][i] == s[i] {
      assert all[|x| + i] == s[i];
      assert code[p..p + |all|][|x| + i] == code[p + (|x| + i)];
    }
  }

  /** Every jz, jl, jmp and call in the code leads exactly to its target fragment. */
  lemma {:induction false} JumpLands(t: Tables, frags: seq<Fragment>, order: seq<nat>, r: seq<nat>, k: nat)
    requires LaidOut(t, frags, order, r) && k < |order| && order[k] < |frags| && Jumps(frags[order[k]].op)
    ensures var b := BackendOf(t, frags, order);
      && IndexOf(order, frags[order[k]].param) < |order|
      && JumpTarget(CodeBytes(t, frags, order, r), Position(b, r, k) + JumpAt(frags[order[k]].op))
         == Some(Position(b, r, IndexOf(order, frags[order[k]].param)))
  {
    hide Sound, Solved, BelowSolved, Body, JumpTarget, Position, NeedsAt, CodeBytes, IsRepresentable, Prologue,
        Epilogue, IsFramed, BodySize;
    var b := BackendOf(t, frags, order);
    var f, offset, s := BodyStands(t, frags, order, r, k);
    NoFlagsNoChores(t, frags, order, k);
    BodyLength(t, f, IsFramed(frags, f), r[k], offset);
    SizeIs(t, frags, order, k, r[k]);
    BodyJump(t, f, IsFramed(frags, f), r[k], offset);
    JumpMoves(CodeBytes(t, frags, order, r), Position(b, r, k), s, JumpAt(f.op));
  }

  /** Every pushed word address is the position of the word. */
  lemma {:induction false} AddressLands(t: Tables, frags: seq<Fragment>, order: seq<nat>, r: seq<nat>, k: nat)
    requires LaidOut(t, frags, order, r) && k < |order| && order[k] < |frags| && frags[order[k]].op == PushOffsetAddress
    ensures var b := BackendOf(t, frags, order);
      && IndexOf(order, frags[order[k]].param) < |order|
      && PoppedAddress(CodeBytes(t, frags, order, r), Position(b, r, k) + |Prologue(t, NeedsAt(t, frags, order, k))|)
         == Some(Position(b, r, IndexOf(order, frags[order[k]].param)))
  {
    hide Body, PoppedAddress, Position, NeedsAt, CodeBytes, IsRepresentable, Prologue, Epilogue, IsFramed, BodySize,
        Sound, Solved, BelowSolved;
    var b := BackendOf(t, frags, order);
    var f, offset, s := BodyStands(t, frags, order, r, k);
    UnrelaxedAddressNeverFits(t, frags, order, r, k);
    BodyAddress(t, f, IsFramed(frags, f), r[k], offset);
    AddressMoves(CodeBytes(t, frags, order, r), Position(b, r, k) + |Prologue(t, NeedsAt(t, frags, order, k))|, s);
  }
}
