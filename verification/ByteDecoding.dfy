/** The image that a layout gives decodes, at each fragment's address, to that fragment. */
module ByteDecoding {
  import opened Common
  import opened Fragments
  import opened NumCodec
  import opened Relaxation
  import opened Grammar
  import opened FragmentMachine
  import opened VmBackend
  import opened VmMachine

  /** Linked code, its relaxations, and the address where the code section starts. */
  datatype Layout = Layout(code: Code, r: seq<nat>, org: int)

  function Offset(lay: Layout, k: nat): int {
    if k <= |lay.r| then Position(BackendOf(lay.code.frags, lay.code.order), lay.r, k) else 0
  }

  function Address(lay: Layout, k: nat): int {
    lay.org + Offset(lay, k)
  }

  /** The image starts with the bytes of the layout. */
  ghost predicate Carries(image: Image, lay: Layout) {
    && image.org == lay.org > 0 && LaidOut(lay.code.frags, lay.code.order, lay.r)
    && var bytes := CodeBytes(lay.code.frags, lay.code.order, lay.r, |lay.code.order|);
       |bytes| <= |image.code| && image.code[..|bytes|] == bytes
  }

  function FragmentAt(c: Code, k: nat): Fragment
    requires Fetches(c, k)
  {
    c.frags[c.order[k]]
  }

  /** What the bytes of place k say besides the opcode. */
  ghost function Operand(lay: Layout, k: nat): int
    requires Fetches(lay.code, k)
  {
    match ShapeOf(FragmentAt(lay.code, k).op)
    case WithParam => FragmentAt(lay.code, k).param
    case WithTarget => Offset(lay, IndexOf(lay.code.order, FragmentAt(lay.code, k).param)) - Offset(lay, k)
    case Bare => 0
    case Silent => 0
  }

  // ----- reading a number -----

  lemma {:induction false} FetchNumber(image: Image, pc: int, num: int, size: int, rest: seq<byte>)
    requires image.org <= pc < image.org + |image.code| && IsInt32(num)
    requires image.code[pc - image.org..] == Encoded(num, size) + rest
    ensures Fetch(image, pc) == Some((num, |Encoded(num, size)|))
  {
    hide Decode, Encoded;
    RoundTrip(num, size, rest);
  }

  lemma {:induction false} NumberNotEmpty(num: int, size: int)
    ensures |Encoded(num, size)| >= 1
  {
    hide Encoded, EncodedSize;
    EncodedLength(num, size);
    SizePositive(num);
  }

  lemma {:induction false} SizePositive(num: int)
    ensures EncodedSize(num) >= 1
  {
  }

  lemma {:induction false} DecodeOne(image: Image, pc: int, op: Opcode, rest: seq<byte>)
    requires image.org <= pc <= image.org + |image.code| && !ShapeOf(op).Silent?
    requires image.code[pc - image.org..] == Number(OpcodeNumber(op)) + rest
    ensures Decoded(image, pc) == WithOperand(image, op, pc + 1)
    ensures pc + 1 <= image.org + |image.code| && image.code[pc + 1 - image.org..] == rest
  {
    hide Encoded, EncodedSize, Fetch, WithOperand;
    NumberLength(OpcodeNumber(op));
    OpcodeIsOneByte(op);
    FetchNumber(image, pc, OpcodeNumber(op), EncodedSize(OpcodeNumber(op)), rest);
    OpcodeBack(op);
    assert image.code[pc - image.org..][1..] == image.code[pc + 1 - image.org..];
  }

  lemma {:induction false} OpcodeBack(op: Opcode)
    requires !ShapeOf(op).Silent?
    ensures OpcodeOf(OpcodeNumber(op)) == Some(op)
  {
  }

  lemma {:induction false} DecodeOperand(image: Image, pc: int, op: Opcode, num: int, size: int, rest: seq<byte>)
    requires image.org <= pc <= image.org + |image.code| && IsInt32(num) && HasOperand(op)
    requires image.code[pc - image.org..] == Encoded(num, size) + rest
    ensures WithOperand(image, op, pc) == Some(Instruction(op, num, pc + |Encoded(num, size)|))
  {
    hide Encoded, Fetch, HasOperand;
    NumberNotEmpty(num, size);
    FetchNumber(image, pc, num, size, rest);
  }

  lemma {:induction false} DecodeShort(image: Image, pc: int, n: nat, rest: seq<byte>)
    requires image.org <= pc <= image.org + |image.code| && n <= SHORT_BUILTINS
    requires image.code[pc - image.org..] == [(n + OPCODE_LAST) as byte] + rest
    ensures Decoded(image, pc) == Some(Instruction(BuiltinWord, n, pc + 1))
  {
    hide Fetch, WithOperand, OpcodeOf;
    ShortEncoded(n + OPCODE_LAST);
    FetchNumber(image, pc, n + OPCODE_LAST, 1, rest);
  }

  lemma {:induction false} ShortEncoded(n: nat)
    requires n <= MAX_ONE_BYTE
    ensures Encoded(n, 1) == [n as byte]
  {
  }

  // ----- one fragment -----

  /** The bytes of a fragment, at an address in the image. */
  lemma {:induction false} DecodesBytes(image: Image, pc: int, f: Fragment, relaxation: nat, distance: int,
      rest: seq<byte>)
    requires image.org <= pc <= image.org + |image.code| && ParamOk(f) && !ShapeOf(f.op).Silent?
    requires ShapeOf(f.op).WithTarget? ==> IsInt32(distance)
    requires image.code[pc - image.org..] == Bytes(f, relaxation, distance) + rest
    ensures Decoded(image, pc) == Some(Instruction(f.op,
      if ShapeOf(f.op).WithParam? then f.param else if ShapeOf(f.op).WithTarget? then distance else 0,
      pc + |Bytes(f, relaxation, distance)|))
  {
    hide Encoded, EncodedSize, Decoded, WithOperand;
    var op := OpcodeNumber(f.op);
    OpcodeIsOneByte(f.op);
    NumberLength(op);
    match ShapeOf(f.op)
    case WithParam =>
      if IsShort(f) {
        DecodeShort(image, pc, f.param, rest);
      } else {
        assert Number(op) + Number(f.param) + rest == Number(op) + (Number(f.param) + rest);
        DecodeOne(image, pc, f.op, Number(f.param) + rest);
        DecodeOperand(image, pc + 1, f.op, f.param, EncodedSize(f.param), rest);
      }
    case WithTarget =>
      var n := Encoded(distance, relaxation + 1);
      assert Number(op) + n + rest == Number(op) + (n + rest);
      DecodeOne(image, pc, f.op, n + rest);
      DecodeOperand(image, pc + 1, f.op, distance, relaxation + 1, rest);
    case Bare =>
      DecodeOne(image, pc, f.op, rest);
      NoOperand(image, f.op, pc + 1);
  }

  lemma {:induction false} NoOperand(image: Image, op: Opcode, at: int)
    requires ShapeOf(op).Bare?
    ensures WithOperand(image, op, at) == Some(Instruction(op, 0, at))
  {
  }

  // ----- the whole image -----

  lemma {:induction false} OffsetStep(lay: Layout, k: nat)
    requires LaidOut(lay.code.frags, lay.code.order, lay.r) && k < |lay.code.order|
    ensures Fetches(lay.code, k) && TargetAt(lay.code.frags, lay.code.order, k) < |lay.code.order|
    ensures 0 <= Offset(lay, k)
        && Offset(lay, k + 1) == Offset(lay, k) + |Chunk(lay.code.frags, lay.code.order, lay.r, k)|
    ensures ShapeOf(FragmentAt(lay.code, k).op).Silent? ==> Offset(lay, k + 1) == Offset(lay, k)
  {
    hide Position, Solved, Bytes;
    assert TargetAt(lay.code.frags, lay.code.order, k) < |lay.code.order|;
    ChunkLength(lay.code.frags, lay.code.order, lay.r, k);
    assert Position(BackendOf(lay.code.frags, lay.code.order), lay.r, k) >= 0;
  }

  lemma {:induction false} BytesStand(image: Image, lay: Layout, k: nat) returns (rest: seq<byte>)
    requires Carries(image, lay) && k < |lay.code.order|
    ensures 0 <= Offset(lay, k) <= |image.code|
    ensures Fetches(lay.code, k) && TargetAt(lay.code.frags, lay.code.order, k) < |lay.code.order|
    ensures image.code[Offset(lay, k)..] == Chunk(lay.code.frags, lay.code.order, lay.r, k) + rest
  {
    hide Position, Solved, Sound, Chunk, BackendOf;
    var frags, order, n := lay.code.frags, lay.code.order, |lay.code.order|;
    OffsetStep(lay, k);
    ChunkStands(frags, order, lay.r, n, k);
    var p, c, bytes := Offset(lay, k), Chunk(frags, order, lay.r, k), CodeBytes(frags, order, lay.r, n);
    rest := image.code[p + |c|..];
    assert image.code[..|bytes|][p..p + |c|] == image.code[p..p + |c|];
    assert image.code[p..] == image.code[p..p + |c|] + rest;
  }

  /** At the address of place k the engine reads back the fragment that stands there and goes on
      at the address of place k + 1. */
  lemma {:induction false} DecodesAt(image: Image, lay: Layout, k: nat)
    requires Carries(image, lay) && k < |lay.code.order| && Fetches(lay.code, k)
    requires !ShapeOf(FragmentAt(lay.code, k).op).Silent?
    ensures Decoded(image, Address(lay, k))
         == Some(Instruction(FragmentAt(lay.code, k).op, Operand(lay, k), Address(lay, k + 1)))
  {
    hide Position, Solved, Bytes, Decoded, Sound, Chunk, CodeBytes, ParamOk;
    var rest := BytesStand(image, lay, k);
    OffsetStep(lay, k);
    var frags, order, r := lay.code.frags, lay.code.order, lay.r;
    ReadyToDump(frags, order, r, k);
    var d := Distance(BackendOf(frags, order), r, k);
    OperandIsDistance(lay, k);
    DecodesBytes(image, Address(lay, k), frags[order[k]], r[k], d, rest);
  }

  lemma {:induction false} OperandIsDistance(lay: Layout, k: nat)
    requires LaidOut(lay.code.frags, lay.code.order, lay.r) && Fetches(lay.code, k)
    ensures TargetAt(lay.code.frags, lay.code.order, k) < |lay.code.order|
    ensures ShapeOf(FragmentAt(lay.code, k).op).WithTarget? ==>
      Operand(lay, k) == Distance(BackendOf(lay.code.frags, lay.code.order), lay.r, k)
  {
    hide Position, Solved;
    assert TargetAt(lay.code.frags, lay.code.order, k) < |lay.code.order|;
  }
}
