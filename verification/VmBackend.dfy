/** The compact byte code backend (vm_backend.c): the size of a fragment, whether its operand can
    be written in the bytes reserved for it, and the bytes that are written. */
module VmBackend {
  import opened Fragments
  import opened NumCodec
  import opened Relaxation
  import opened Dumping
  import opened FragmentMachine

  /** The builtins whose number is folded into the opcode byte. */
  const SHORT_BUILTINS := MAX_ONE_BYTE - OPCODE_LAST

  /** The groups of the three switches. */
  datatype Shape = WithParam | WithTarget | Bare | Silent

  function ShapeOf(op: Opcode): Shape {
    match op
    case BuiltinWord => WithParam
    case RuntimeWord => WithParam
    case PushLiteral => WithParam
    case PushDataAddress => WithParam
    case DeclareVariable => WithParam
    case UseVariableOrConstant => WithParam
    case PushCallback => WithParam
    case DeclareConstant => WithParam
    case DefinedWord => WithTarget
    case BranchIfZero => WithTarget
    case Branch => WithTarget
    case Loop => WithTarget
    case PushOffsetAddress => WithTarget
    case ExitWord => Bare
    case Halt => Bare
    case Do => Bare
    case Execute => Bare
    case ThreadCreate => Bare
    case ThreadJoin => Bare
    case DefinedWordLocation => Silent
    case BranchLocation => Silent
    case Entry => Silent
  }

  predicate IsShort(f: Fragment) {
    f.op == BuiltinWord && f.param <= SHORT_BUILTINS
  }

  function FragmentBinSize(f: Fragment, relaxation: nat): nat {
    match ShapeOf(f.op)
    case WithParam => if IsShort(f) then 1 else EncodedSize(OpcodeNumber(f.op)) + EncodedSize(f.param)
    case WithTarget => EncodedSize(OpcodeNumber(f.op)) + relaxation + 1
    case Bare => EncodedSize(OpcodeNumber(f.op))
    case Silent => 0
  }

  predicate FragmentBinIsRepresentable(f: Fragment, relaxation: nat, distance: int) {
    ShapeOf(f.op).WithTarget? ==> EncodedSize(distance) <= relaxation + 1
  }

  /** The bytes of a fragment whose target is `distance` bytes after its own start. */
  function Bytes(f: Fragment, relaxation: nat, distance: int): seq<byte> {
    match ShapeOf(f.op)
    case WithParam =>
      if IsShort(f) then [((f.param + OPCODE_LAST) % 256) as byte] else Number(OpcodeNumber(f.op)) + Number(f.param)
    case WithTarget => Number(OpcodeNumber(f.op)) + Encoded(distance, relaxation + 1)
    case Bare => Number(OpcodeNumber(f.op))
    case Silent => []
  }

  lemma {:induction false} OpcodeIsOneByte(op: Opcode)
    ensures EncodedSize(OpcodeNumber(op)) == 1
  {
  }

  /** The opcodes as the enum lists them (mcp_forth.h:47-71). */
  const OPCODES: seq<Opcode> := [
    BuiltinWord, DefinedWord, RuntimeWord, PushLiteral, ExitWord, DefinedWordLocation, PushDataAddress,
    DeclareVariable, UseVariableOrConstant, Halt, BranchLocation, BranchIfZero, Branch, Do, Loop, PushOffsetAddress,
    PushCallback, DeclareConstant, Execute, ThreadCreate, ThreadJoin, Entry]

  /** The first byte of a fragment is the place of its opcode in the enum, or, for one of the first 42
      builtins, the place of the builtin behind the 22 opcodes. */
  lemma {:induction false} FirstByte(i: nat, f: Fragment, relaxation: nat, distance: int)
    requires i < |OPCODES| && f.op == OPCODES[i] && !ShapeOf(f.op).Silent?
    requires f.op == BuiltinWord ==> f.param >= 0
    ensures |OPCODES| == 22 && |Bytes(f, relaxation, distance)| > 0
    ensures var b := Bytes(f, relaxation, distance)[0] as int;
      b == if f.op == BuiltinWord && f.param < 42 then 22 + f.param else i
  {
    hide Encoded;
    OpcodeIs(i);
    NumberIsOneByte(i);
  }

  lemma {:induction false} OpcodeIs(i: nat)
    requires i < |OPCODES|
    ensures OpcodeNumber(OPCODES[i]) == i
  {
  }

  lemma {:induction false} NumberIsOneByte(i: nat)
    requires i < 64
    ensures Number(i) == [i as byte]
  {
  }

  /** Where the operand is representable, as many bytes are written as were reserved. */
  lemma {:induction false} SizeAgrees(f: Fragment, relaxation: nat, distance: int)
    requires FragmentBinIsRepresentable(f, relaxation, distance)
    ensures |Bytes(f, relaxation, distance)| == FragmentBinSize(f, relaxation)
  {
    hide EncodedSize, Encoded, Number;
    NumberLength(OpcodeNumber(f.op));
    NumberLength(f.param);
    EncodedLength(distance, relaxation + 1);
  }

  // ----- as a backend of the relaxation loop -----

  predicate Known(frags: seq<Fragment>, order: seq<nat>, k: nat) {
    k < |order| && order[k] < |frags|
  }

  function SizeAt(frags: seq<Fragment>, order: seq<nat>, k: nat, relaxation: nat): nat {
    if Known(frags, order, k) then FragmentBinSize(frags[order[k]], relaxation) else 0
  }

  function TargetAt(frags: seq<Fragment>, order: seq<nat>, k: nat): nat {
    if Known(frags, order, k)
        && ShapeOf(frags[order[k]].op).WithTarget? then IndexOf(order, frags[order[k]].param) else k
  }

  predicate FitsAt(frags: seq<Fragment>, order: seq<nat>, k: nat, relaxation: nat, distance: int) {
    Known(frags, order, k) ==> FragmentBinIsRepresentable(frags[order[k]], relaxation, distance)
  }

  /** Five bytes of operand are always enough. */
  const MOST_RELAXED := 4

  function BackendOf(frags: seq<Fragment>, order: seq<nat>): Backend {
    Backend((k: nat, x: nat) => SizeAt(frags, order, k, x), (k: nat) => TargetAt(frags, order, k),
            (k: nat, x: nat, d: int) => FitsAt(frags, order, k, x, d), (k: nat) => MOST_RELAXED)
  }

  /** What the front end guarantees: parameters are 32-bit numbers, builtins exist and branches
      name placed locations. */
  ghost predicate Sound(frags: seq<Fragment>, order: seq<nat>) {
    && (forall k :: 0 <= k < |order| ==> order[k] < |frags|)
    && (forall k :: 0 <= k < |order| ==> TargetAt(frags, order, k) < |order|)
    && (forall i :: 0 <= i < |frags| ==> ParamOk(frags[i]))
  }

  predicate ParamOk(f: Fragment) {
    && (f.op == BuiltinWord ==> 0 <= f.param < BUILTIN_COUNT)
    && (ShapeOf(f.op).WithParam? ==> IsInt32(f.param))
  }

  lemma {:induction false} SizeBounded(f: Fragment)
    requires ParamOk(f)
    ensures FragmentBinSize(f, MOST_RELAXED) <= 6
  {
    hide EncodedSize;
    OpcodeIsOneByte(f.op);
    if ShapeOf(f.op).WithParam? { Int32FitsFive(f.param); }
  }

  lemma {:induction false} PositionBounded(frags: seq<Fragment>, order: seq<nat>, n: nat, k: nat)
    requires Sound(frags, order) && k <= n <= |order|
    ensures Position(BackendOf(frags, order), Caps(BackendOf(frags, order), n), k) <= 6 * k
  {
    hide FragmentBinSize;
    if k > 0 {
      PositionBounded(frags, order, n, k - 1);
      assert Known(frags, order, k - 1);
      SizeBounded(frags[order[k - 1]]);
    }
  }

  /** The relaxation loop may be run over the byte code backend, and so it halts at the smallest
      code: a program of at most 2^31 / 6 fragments is laid out below 2^31. */
  lemma {:induction false} VmBackendIsLawful(frags: seq<Fragment>, order: seq<nat>)
    requires Sound(frags, order) && 6 * |order| < LIMIT
    ensures Lawful(BackendOf(frags, order), |order|)
  {
    hide EncodedSize, Position, Caps, ShapeOf;
    var b, n := BackendOf(frags, order), |order|;
    PositionBounded(frags, order, n, n);
    forall k, x, far, near | 0 <= k < n && b.fits(k, x, far)
        && (if b.target(k) > k then b.size(k, x) <= near <= far else far <= near <= 0)
      ensures b.fits(k, x, near)
    {
      SizeMonotone(near, far);
    }
    forall k, d | 0 <= k < n && -LIMIT <= d < LIMIT ensures b.fits(k, b.cap(k), d) {
      Int32FitsFive(d);
    }
  }

  // ----- what the layout is smallest among -----

  /** The bytes taken by what has no displacement: one for the first 42 builtins, two for the
      others, one and the operand's for words with an operand, none for locations. */
  lemma {:induction false} OperandSizes(f: Fragment, x: nat, s: nat)
    requires s >= 1
    ensures f.op == BuiltinWord && 0 <= f.param < BUILTIN_COUNT ==>
      FragmentBinSize(f, x) == if f.param < 42 then 1 else 2
    ensures f.op in {RuntimeWord, PushLiteral, PushDataAddress, DeclareVariable, UseVariableOrConstant, PushCallback,
                     DeclareConstant} ==>
      (FragmentBinSize(f, x) <= 1 + s <==> 0 - HalfRange(s) <= f.param < HalfRange(s))
    ensures f.op in {ExitWord, Halt, Do, Execute, ThreadCreate, ThreadJoin} ==> FragmentBinSize(f, x) == 1
    ensures f.op in {DefinedWordLocation, BranchLocation, Entry} ==> FragmentBinSize(f, x) == 0
    ensures HasTarget(f.op) ==> FragmentBinSize(f, x) == x + 2
  {
    hide EncodedSize;
    OpcodeIsOneByte(f.op);
    EncodedSizeExact(f.param, s);
    EncodedSizeExact(f.param, 1);
    assert HalfRange(1) == 64;
    if f.op == BuiltinWord && 0 <= f.param < BUILTIN_COUNT { Int32FitsFive(f.param); }
  }

  /** The fragments whose operand is a displacement. */
  predicate HasTarget(op: Opcode) {
    op in {DefinedWord, BranchIfZero, Branch, Loop, PushOffsetAddress}
  }

  /** x + 1 bytes of seven bits hold the displacement of such a fragment if and only if it lies in
      the signed range of 7 (x + 1) bits; other fragments are always representable. */
  lemma {:induction false} RepresentableExactly(f: Fragment, x: nat, distance: int)
    ensures FragmentBinIsRepresentable(f, x, distance)
       <==> (HasTarget(f.op) ==> 0 - HalfRange(x + 1) <= distance < HalfRange(x + 1))
  {
    hide EncodedSize, HalfRange;
    EncodedSizeExact(distance, x + 1);
  }

  /** Each displacement of this layout lies in the signed range of the bits that it has. */
  ghost predicate InRanges(frags: seq<Fragment>, order: seq<nat>, r: seq<nat>) {
    && |r| == |order|
    && forall k :: 0 <= k < |order| && order[k] < |frags| && HasTarget(frags[order[k]].op) ==>
         && TargetAt(frags, order, k) < |order|
         && 0 - HalfRange(r[k] + 1) <= Distance(BackendOf(frags, order), r, k) < HalfRange(r[k] + 1)
  }

  /** A layout is solved if and only if every displacement is in its range. */
  lemma {:induction false} SolvedExactly(frags: seq<Fragment>, order: seq<nat>, r: seq<nat>)
    requires Sound(frags, order) && |r| == |order|
    ensures Solved(BackendOf(frags, order), r) <==> InRanges(frags, order, r)
  {
    hide FragmentBinIsRepresentable, HalfRange, Position, Distance, HasTarget;
    forall k | 0 <= k < |order|
      ensures Fitting(BackendOf(frags, order), r, k)
         <==> (HasTarget(frags[order[k]].op) ==>
                 0 - HalfRange(r[k] + 1) <= Distance(BackendOf(frags, order), r, k) < HalfRange(r[k] + 1))
    {
      assert order[k] < |frags| && TargetAt(frags, order, k) < |order|;
      RepresentableExactly(frags[order[k]], r[k], Distance(BackendOf(frags, order), r, k));
    }
  }

  /** No layout whose displacements are in range has a smaller relaxation, an earlier position or
      a shorter code anywhere. */
  ghost predicate Smallest(frags: seq<Fragment>, order: seq<nat>, r: seq<nat>) {
    InRanges(frags, order, r) && forall s :: InRanges(frags, order, s) ==> NoLater(frags, order, r, s)
  }

  ghost predicate NoLater(frags: seq<Fragment>, order: seq<nat>, r: seq<nat>, s: seq<nat>) {
    && |r| == |order| == |s| && (forall k :: 0 <= k < |order| ==> r[k] <= s[k])
    && forall k :: 0 <= k <= |order| ==>
         Position(BackendOf(frags, order), r, k) <= Position(BackendOf(frags, order), s, k)
  }

  lemma {:induction false} LeastIsNoLater(frags: seq<Fragment>, order: seq<nat>, r: seq<nat>, s: seq<nat>)
    requires Lawful(BackendOf(frags, order), |order|) && |r| == |order| == |s|
    requires BelowSolved(BackendOf(frags, order), r) && Solved(BackendOf(frags, order), s)
    ensures NoLater(frags, order, r, s)
  {
    hide Lawful, BelowSolved, Solved, Position;
    forall k | 0 <= k <= |order|
      ensures Position(BackendOf(frags, order), r, k) <= Position(BackendOf(frags, order), s, k)
    {
      LeastIsSmallest(BackendOf(frags, order), r, s, k);
    }
    LeastIsSmallest(BackendOf(frags, order), r, s, 0);
  }

  lemma {:induction false} LeastIsSmallestInRange(frags: seq<Fragment>, order: seq<nat>, r: seq<nat>)
    requires Sound(frags, order) && 6 * |order| < LIMIT && |r| == |order|
    requires Solved(BackendOf(frags, order), r) && BelowSolved(BackendOf(frags, order), r)
    ensures Smallest(frags, order, r)
  {
    hide Sound, InRanges, Solved, BelowSolved, Lawful, NoLater;
    VmBackendIsLawful(frags, order);
    SolvedExactly(frags, order, r);
    forall s | InRanges(frags, order, s) ensures NoLater(frags, order, r, s) {
      InRangesLength(frags, order, s);
      SolvedExactly(frags, order, s);
      LeastIsNoLater(frags, order, r, s);
    }
  }

  lemma {:induction false} InRangesLength(frags: seq<Fragment>, order: seq<nat>, r: seq<nat>)
    requires InRanges(frags, order, r)
    ensures |r| == |order|
  {
    hide HasTarget, TargetAt, HalfRange, Distance;
  }

  // ----- the code section -----

  /** The bytes of place k. */
  ghost function Chunk(frags: seq<Fragment>, order: seq<nat>, r: seq<nat>, k: nat): seq<byte> {
    if Known(frags, order, k) && |r| == |order| && TargetAt(frags, order, k) < |order|
    then Bytes(frags[order[k]], r[k], Distance(BackendOf(frags, order), r, k)) else []
  }

  ghost function Chunks(frags: seq<Fragment>, order: seq<nat>, r: seq<nat>): nat -> seq<byte> {
    (k: nat) => Chunk(frags, order, r, k)
  }

  /** The bytes of the places before n. */
  ghost function CodeBytes(frags: seq<Fragment>, order: seq<nat>, r: seq<nat>, n: nat): seq<byte> {
    Joined(Chunks(frags, order, r), n)
  }

  lemma {:induction false} ChunkLength(frags: seq<Fragment>, order: seq<nat>, r: seq<nat>, k: nat)
    requires Sound(frags, order) && |r| == |order| && Solved(BackendOf(frags, order), r) && k < |order|
    ensures |Chunk(frags, order, r, k)| == SizeAt(frags, order, k, r[k])
    ensures Position(BackendOf(frags, order), r, k + 1)
        == Position(BackendOf(frags, order), r, k) + |Chunk(frags, order, r, k)|
  {
    hide Bytes, FragmentBinSize;
    var b := BackendOf(frags, order);
    assert Fitting(b, r, k);
    SizeAgrees(frags[order[k]], r[k], Distance(b, r, k));
  }

  lemma {:induction false} ChunksExact(frags: seq<Fragment>, order: seq<nat>, r: seq<nat>)
    requires Sound(frags, order) && |r| == |order| && Solved(BackendOf(frags, order), r)
    ensures Exact(BackendOf(frags, order), r, Chunks(frags, order, r))
  {
    hide Chunk, Solved, Sound, Position;
    forall k | 0 <= k < |r| ensures |Chunks(frags, order, r)(k)| == BackendOf(frags, order).size(k, r[k]) {
      ChunkLength(frags, order, r, k);
    }
  }

  lemma {:induction false} CodeLength(frags: seq<Fragment>, order: seq<nat>, r: seq<nat>, n: nat)
    requires Sound(frags, order) && |r| == |order| && Solved(BackendOf(frags, order), r) && n <= |order|
    ensures |CodeBytes(frags, order, r, n)| == Position(BackendOf(frags, order), r, n)
  {
    hide Solved, Sound, BackendOf, Exact;
    ChunksExact(frags, order, r);
    JoinedLength(BackendOf(frags, order), r, Chunks(frags, order, r), n);
  }

  /** Every fragment's bytes stand at its position. */
  lemma {:induction false} ChunkStands(frags: seq<Fragment>, order: seq<nat>, r: seq<nat>, n: nat, k: nat)
    requires Sound(frags, order) && |r| == |order| && Solved(BackendOf(frags, order), r) && k < n <= |order|
    ensures var p, c := Position(BackendOf(frags, order), r, k), Chunk(frags, order, r, k);
      p + |c| <= |CodeBytes(frags, order, r, n)| && CodeBytes(frags, order, r, n)[p..p + |c|] == c
  {
    hide Chunk, Solved, Sound, BackendOf, Exact, Joined, Position;
    ChunksExact(frags, order, r);
    ChunkStandsIn(BackendOf(frags, order), r, Chunks(frags, order, r), n, k);
  }

  // ----- writing -----

  /** One fragment: the operand is the distance from its own start to its target's. */
  method FragmentBinDump(f: Fragment, relaxation: nat, distance: int, dst: array<byte>, at: nat)
    requires ParamOk(f) && FragmentBinIsRepresentable(f, relaxation, distance)
    requires ShapeOf(f.op).WithTarget? ==> IsInt32(distance) && relaxation <= MOST_RELAXED
    requires at + FragmentBinSize(f, relaxation) <= dst.Length
    modifies dst
    ensures |Bytes(f, relaxation, distance)| == FragmentBinSize(f, relaxation)
    ensures dst[..] == Patched(old(dst[..]), at, Bytes(f, relaxation, distance))
  {
    hide EncodedSize, Encoded, OpcodeNumber, Patched;
    SizeAgrees(f, relaxation, distance);
    ghost var was := dst[..];
    match ShapeOf(f.op)
    case WithParam =>
      if IsShort(f) {
        var b := ((f.param + OPCODE_LAST) % 256) as byte;
        NothingWritten(was, at);
        PutByte(dst, at, b, was, at, []);
        WrittenIsPatched(dst[..], was, at, [] + [b]);
        assert [] + [b] == [b];
      } else {
        NumberLength(OpcodeNumber(f.op));
        NumberLength(f.param);
        var k := Encode(OpcodeNumber(f.op), dst, at);
        k := Encode(f.param, dst, at + k);
        PatchedTwice(was, at, Number(OpcodeNumber(f.op)), Number(f.param));
      }
    case WithTarget =>
      NumberLength(OpcodeNumber(f.op));
      EncodedLength(distance, relaxation + 1);
      var k := Encode(OpcodeNumber(f.op), dst, at);
      EncodeWithSize(distance, dst, at + k, relaxation + 1);
      PatchedTwice(was, at, Number(OpcodeNumber(f.op)), Encoded(distance, relaxation + 1));
    case Bare =>
      NumberLength(OpcodeNumber(f.op));
      var k := Encode(OpcodeNumber(f.op), dst, at);
    case Silent =>
      PatchedNothing(was, at);
  }

  /** What a layout found by the relaxation loop guarantees to the dump. */
  ghost predicate LaidOut(frags: seq<Fragment>, order: seq<nat>, r: seq<nat>) {
    var b := BackendOf(frags, order);
    && Sound(frags, order) && |r| == |order| && Solved(b, r)
    && (forall k :: 0 <= k < |r| ==> r[k] <= MOST_RELAXED)
    && (forall k :: 0 <= k <= |r| ==> 0 <= Position(b, r, k) < LIMIT)
  }

  lemma {:induction false} SolutionIsLaidOut(frags: seq<Fragment>, order: seq<nat>, r: seq<nat>)
    requires Sound(frags, order) && 6 * |order| < LIMIT && |r| == |order|
    requires Solved(BackendOf(frags, order), r) && BelowSolved(BackendOf(frags, order), r)
    ensures LaidOut(frags, order, r)
  {
    hide Position, Sound, Nearer, Capped, Fitting;
    var b, n := BackendOf(frags, order), |order|;
    VmBackendIsLawful(frags, order);
    CapsSolve(b, n);
    forall k | 0 <= k <= n ensures 0 <= Position(b, r, k) < LIMIT {
      Spreads(b, r, Caps(b, n), 0, k);
      PositionsBelowLimit(b, n, k);
      FirstPosition(b, r);
      FirstPosition(b, Caps(b, n));
    }
    assert AtMost(r, Caps(b, n));
  }

  /** The displacement as the dump computes it from the position fields. */
  lemma {:induction false} FieldDistance(frags: seq<Fragment>, order: seq<nat>, r: seq<nat>, field: seq<int>, k: nat)
    requires Sound(frags, order) && PositionsUpTo(BackendOf(frags, order), order, field, r, |order|) && k < |order|
    requires ShapeOf(frags[order[k]].op).WithTarget?
    ensures 0 <= frags[order[k]].param < |field| && order[k] < |field|
    ensures field[frags[order[k]].param] - field[order[k]] == Distance(BackendOf(frags, order), r, k)
  {
    hide Position, ParamOk;
    assert TargetAt(frags, order, k) < |order|;
    IndexFound(order, frags[order[k]].param);
  }

  lemma {:induction false} ReadyToDump(frags: seq<Fragment>, order: seq<nat>, r: seq<nat>, k: nat)
    requires LaidOut(frags, order, r) && k < |order|
    ensures var f, d := frags[order[k]], Distance(BackendOf(frags, order), r, k);
      ParamOk(f) && IsInt32(d) && FragmentBinIsRepresentable(f, r[k], d) && r[k] <= MOST_RELAXED
    ensures Chunk(frags, order, r, k) == Bytes(frags[order[k]], r[k], Distance(BackendOf(frags, order), r, k))
  {
    hide Position, Bytes;
    assert Known(frags, order, k) && TargetAt(frags, order, k) < |order|;
    assert Fitting(BackendOf(frags, order), r, k);
  }

  lemma {:induction false} NextChunk(frags: seq<Fragment>, order: seq<nat>, r: seq<nat>, k: nat, was: seq<byte>,
      at: nat)
    requires LaidOut(frags, order, r) && k < |order|
    requires at + Position(BackendOf(frags, order), r, |order|) <= |was|
    ensures var b := BackendOf(frags, order);
      && |CodeBytes(frags, order, r, k)| == Position(b, r, k)
          && |CodeBytes(frags, order, r, k + 1)| == Position(b, r, k + 1)
      && Position(b, r, k + 1) == Position(b, r, k) + FragmentBinSize(frags[order[k]], r[k])
      && at + Position(b, r, k + 1) <= |was|
      && |Chunk(frags, order, r, k)| == FragmentBinSize(frags[order[k]], r[k])
      && Patched(was, at, CodeBytes(frags, order, r, k + 1))
         == Patched(Patched(was, at, CodeBytes(frags, order, r, k)), at + Position(b, r, k), Chunk(frags, order, r, k))
  {
    hide Chunk, Solved, FragmentBinSize, Patched, Position, Distance, BackendOf, TargetAt, ParamOk;
    CodeLength(frags, order, r, k);
    CodeLength(frags, order, r, k + 1);
    ChunkLength(frags, order, r, k);
    PositionGrows(frags, order, r, k + 1, |order|);
    PatchedTwice(was, at, CodeBytes(frags, order, r, k), Chunk(frags, order, r, k));
  }

  lemma {:induction false} PositionGrows(frags: seq<Fragment>, order: seq<nat>, r: seq<nat>, j: nat, k: nat)
    requires j <= k <= |r|
    ensures Position(BackendOf(frags, order), r, j) <= Position(BackendOf(frags, order), r, k)
  {
    hide FragmentBinSize;
    if j < k { PositionGrows(frags, order, r, j, k - 1); }
  }

  /** The loop over the sequence (compile.c:914-918). */
  method DumpCode(frags: seq<Fragment>, order: seq<nat>, position: array<int>, relaxation: array<int>,
                  ghost r: seq<nat>, dst: array<byte>, at: nat)
    returns (end: nat)
    requires LaidOut(frags, order, r) && PositionsUpTo(BackendOf(frags, order), order, position[..], r, |order|)
    requires Column(order, relaxation[..], r)
    requires at + Position(BackendOf(frags, order), r, |order|) <= dst.Length
    modifies dst
    ensures end == at + Position(BackendOf(frags, order), r, |order|)
    ensures |CodeBytes(frags, order, r, |order|)| == end - at
    ensures dst[..] == Patched(old(dst[..]), at, CodeBytes(frags, order, r, |order|))
  {
    hide Position, LaidOut, PositionsUpTo, Column, FragmentBinSize, Patched, Bytes, FragmentBinIsRepresentable,
        ParamOk, Distance;
    end := at;
    var i := 0;
    ghost var b, was := BackendOf(frags, order), dst[..];
    DumpStarts(frags, order, r, was, at);
    while i < |order|
      invariant 0 <= i <= |order|
      invariant end == at + Position(b, r, i)
      invariant |CodeBytes(frags, order, r, i)| == Position(b, r, i) && end <= dst.Length
      invariant dst[..] == Patched(was, at, CodeBytes(frags, order, r, i))
    {
      NextChunk(frags, order, r, i, was, at);
      ReadyToDump(frags, order, r, i);
      RelaxationField(order, relaxation[..], r, i);
      var f, relax := frags[order[i]], relaxation[order[i]];
      var distance := 0;
      if ShapeOf(f.op).WithTarget? {
        FieldDistance(frags, order, r, position[..], i);
        distance := position[f.param] - position[order[i]];
      }
      NoDistance(f, relax, distance, Distance(b, r, i));
      FragmentBinDump(f, relax, distance, dst, end);
      end := end + FragmentBinSize(f, relax);
      i := i + 1;
    }
  }

  lemma {:induction false} DumpStarts(frags: seq<Fragment>, order: seq<nat>, r: seq<nat>, was: seq<byte>, at: nat)
    requires LaidOut(frags, order, r) && at + Position(BackendOf(frags, order), r, |order|) <= |was|
    ensures Sound(frags, order) && |r| == |order| && at <= |was|
    ensures Position(BackendOf(frags, order), r, 0) == 0 && CodeBytes(frags, order, r, 0) == []
    ensures Patched(was, at, []) == was
  {
    PositionGrows(frags, order, r, 0, |order|);
    PatchedNothing(was, at);
  }

  /** The displacement only matters to fragments that have one. */
  lemma {:induction false} NoDistance(f: Fragment, relaxation: nat, d: int, e: int)
    requires ShapeOf(f.op).WithTarget? ==> d == e
    ensures Bytes(f, relaxation, d) == Bytes(f, relaxation, e)
    ensures FragmentBinIsRepresentable(f, relaxation, d) == FragmentBinIsRepresentable(f, relaxation, e)
  {
    hide Encoded, EncodedSize;
  }
}
