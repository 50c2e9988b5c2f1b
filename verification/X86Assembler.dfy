/** From accepted tokens to x86-32 code: what the front end hands over is sound for the native
    backend, the relaxation loop lays it out, and the dump loop writes it. */
module X86Assembler {
  import opened Common
  import opened Fragments
  import opened NumCodec
  import opened FrontEnd
  import opened Conservation
  import opened Compiler
  import opened Partition
  import opened FragmentMachine
  import opened Relaxation
  import opened Dumping
  import opened X86Backend
  import Assembler
  import Chores
  import Pipeline
  import VmBackend
  import X86Dump
  import X86Elision

  /** No builtin, and no set of chores, is longer than m bytes. */
  ghost predicate TablesWithin(t: Tables, m: nat) {
    && (forall n :: |t.code(n)| <= m)
    && |t.choreA| + |t.choreB| + |t.choreY| + |t.choreZ| <= m
  }

  lemma {:induction false} BodyWithin(t: Tables, f: Fragment, framed: bool, relaxation: nat, m: nat)
    requires TablesWithin(t, m)
    ensures BodySize(t, f, framed, relaxation) <= m + 15
  {
    hide AsmNumIsSmall;
  }

  lemma {:induction false} SizeWithin(t: Tables, frags: seq<Fragment>, order: seq<nat>, k: nat, relaxation: nat, m: nat)
    requires TablesWithin(t, m)
    ensures SizeAt(t, frags, order, k, relaxation) <= 2 * m + 15
  {
    hide BodySize, NeedsAt, IsFramed;
    if Known(frags, order, k) { BodyWithin(t, frags[order[k]], IsFramed(frags, frags[order[k]]), relaxation, m); }
  }

  lemma {:induction false} PositionWithin(t: Tables, frags: seq<Fragment>, order: seq<nat>, r: seq<nat>, k: nat,
      m: nat, w: nat)
    requires TablesWithin(t, m) && k <= |r| && w == 2 * m + 15
    ensures Position(BackendOf(t, frags, order), r, k) <= w * k
  {
    hide SizeAt, TablesWithin;
    if k > 0 {
      PositionWithin(t, frags, order, r, k - 1, m, w);
      SizeWithin(t, frags, order, k - 1, r[k - 1], m);
      assert w * k == w * (k - 1) + w;
    }
  }

  lemma {:induction false} SameTarget(frags: seq<Fragment>, order: seq<nat>, k: nat)
    ensures TargetAt(frags, order, k) == VmBackend.TargetAt(frags, order, k)
  {
    hide IndexOf;
  }

  /** Accepted tokens give the native backend sound code: every fragment is there, every jump, call
      and word address has a placed target, and the code is below 2^31. */
  lemma {:induction false} LinkedIsSoundForX86(t: Tables, lr: Option<Opcode -> bool>, ts: seq<Token>, m: nat)
    requires Compiled(lr, ts).Ok? && TablesWithin(t, m)
    requires (2 * m + 15) * |Pipeline.LinkedCode(lr, ts).order| < LIMIT
    ensures Sound(t, Pipeline.LinkedCode(lr, ts).frags, Pipeline.LinkedCode(lr, ts).order)
  {
    hide Compiled, Partitioned, Counted, TargetAt, VmBackend.TargetAt, Position, Caps, TablesWithin;
    AllPlacedOnSuccess(lr, ts);
    var st := Compiled(lr, ts).value;
    var order := Partitioned(st.frags, st.sequence);
    forall k | 0 <= k < |order| ensures order[k] < |st.frags| && TargetAt(st.frags, order, k) < |order| {
      Pipeline.TargetPlaced(st, k);
      SameTarget(st.frags, order, k);
    }
    var b := BackendOf(t, st.frags, order);
    PositionWithin(t, st.frags, order, Caps(b, |order|), |order|, m, 2 * m + 15);
  }

  // ----- where control comes from elsewhere -----

  lemma {:induction false} NameIsLocation(lr: Option<Opcode -> bool>, ts: seq<Token>, id: nat)
    requires Compiled(lr, ts).Ok? && id < |Pipeline.LinkedCode(lr, ts).frags|
    requires Pipeline.LinkedCode(lr, ts).frags[id].op in {BranchIfZero, Branch, Loop, DefinedWord, PushOffsetAddress}
    ensures var frags := Pipeline.LinkedCode(lr, ts).frags; var to := frags[id].param;
      0 <= to < |frags| && frags[to].op in {BranchLocation, DefinedWordLocation}
  {
    hide Compiled, Partitioned, Counted, ControlOk;
    AllPlacedOnSuccess(lr, ts);
    var st := Compiled(lr, ts).value;
    var f := st.frags[id];
    assert TargetOk(st, f);
    if f.op in {DefinedWord, PushOffsetAddress} {
      var w :| 0 <= w < |st.words| && st.words[w] == f.param;
      assert WordOk(st, st.words[w]);
    }
  }

  lemma {:induction false} NamedPlace(lr: Option<Opcode -> bool>, ts: seq<Token>, id: nat)
    requires Compiled(lr, ts).Ok? && id < |Pipeline.LinkedCode(lr, ts).frags|
    ensures var c := Pipeline.LinkedCode(lr, ts);
      IndexOf(c.order, id) < |c.order| && c.order[IndexOf(c.order, id)] == id
  {
    hide Compiled, Partitioned, Invariant, IndexOf;
    AllPlacedOnSuccess(lr, ts);
    var st := Compiled(lr, ts).value;
    Pipeline.StaysPlaced(st.frags, st.sequence, id);
    Pipeline.IndexPresent(Pipeline.LinkedCode(lr, ts).order, id);
    IndexFound(Pipeline.LinkedCode(lr, ts).order, id);
  }

  /** An entry, with every chore on both sides. */
  predicate IsClear(t: Tables, frags: seq<Fragment>, order: seq<nat>, j: nat) {
    X86Elision.IsEntry(frags, order, j) && !Chores.Cut(FlagsOf(t, frags, order, |order|), j)
  }

  /** In the linked code of accepted tokens no chore is left out where control comes from elsewhere:
      where a branch or a call leads or a word address points, behind a call, and at the start. */
  lemma {:induction false} ControlMeetsChores(t: Tables, lr: Option<Opcode -> bool>, ts: seq<Token>, k: nat)
    requires Compiled(lr, ts).Ok? && k < |Pipeline.LinkedCode(lr, ts).order|
    requires Pipeline.LinkedCode(lr, ts).order[k] < |Pipeline.LinkedCode(lr, ts).frags|
    ensures var c := Pipeline.LinkedCode(lr, ts); var f := c.frags[c.order[k]];
      && (f.op in {BranchIfZero, Branch, Loop, DefinedWord, PushOffsetAddress} ==>
            IndexOf(c.order, f.param) < |c.order| && IsClear(t, c.frags, c.order, IndexOf(c.order, f.param)))
      && (f.op in {DefinedWord, Execute} ==> IsClear(t, c.frags, c.order, k + 1))
      && (f.op == Entry ==> IsClear(t, c.frags, c.order, k))
  {
    hide Compiled, Pipeline.LinkedCode, Chores.Cut, FlagsOf, IndexOf;
    var c := Pipeline.LinkedCode(lr, ts);
    var f := c.frags[c.order[k]];
    if f.op in {BranchIfZero, Branch, Loop, DefinedWord, PushOffsetAddress} {
      NameIsLocation(lr, ts, c.order[k]);
      NamedPlace(lr, ts, f.param);
      X86Elision.EntriesAreClear(t, c.frags, c.order, IndexOf(c.order, f.param));
    }
    if f.op in {DefinedWord, Execute} { X86Elision.EntriesAreClear(t, c.frags, c.order, k + 1); }
    if f.op == Entry { X86Elision.EntriesAreClear(t, c.frags, c.order, k); }
  }

  // ----- the dump loop -----

  lemma {:induction false} NextChunk(t: Tables, frags: seq<Fragment>, order: seq<nat>, r: seq<nat>, k: nat,
      was: seq<byte>)
    requires Sound(t, frags, order) && |r| == |order| && k < |order|
    requires Position(BackendOf(t, frags, order), r, |order|) <= |was|
    ensures var b, chunks := BackendOf(t, frags, order), Chunks(t, frags, order, r);
      && |Joined(chunks, k)| == Position(b, r, k) && |Joined(chunks, k + 1)| == Position(b, r, k + 1)
      && Position(b, r, k + 1) == Position(b, r, k) + SizeAt(t, frags, order, k, r[k]) <= |was|
      && |chunks(k)| == SizeAt(t, frags, order, k, r[k])
      && Patched(was, 0, Joined(chunks, k + 1))
         == Patched(Patched(was, 0, Joined(chunks, k)), Position(b, r, k), chunks(k))
  {
    hide Chunk, Sound, SizeAt, Position, Patched;
    var b, chunks := BackendOf(t, frags, order), Chunks(t, frags, order, r);
    forall j | 0 <= j < |r| ensures |chunks(j)| == b.size(j, r[j]) {
      ChunkLength(t, frags, order, r, j);
    }
    JoinedLength(b, r, chunks, k);
    JoinedLength(b, r, chunks, k + 1);
    ChunkStandsIn(b, r, chunks, |order|, k);
    JoinedLength(b, r, chunks, |order|);
    PatchedTwice(was, 0, Joined(chunks, k), chunks(k));
  }

  lemma {:induction false} FieldDistance(
      t: Tables, frags: seq<Fragment>, order: seq<nat>, r: seq<nat>, field: seq<int>, k: nat)
    requires Sound(t, frags, order) && k < |order|
    requires PositionsUpTo(BackendOf(t, frags, order), order, field, r, |order|)
    requires HasDisplacement(frags[order[k]].op)
    ensures 0 <= frags[order[k]].param < |field| && order[k] < |field|
    ensures field[frags[order[k]].param] - field[order[k]] == Distance(BackendOf(t, frags, order), r, k)
  {
    hide Position, Caps, HasDisplacement;
    assert TargetAt(frags, order, k) < |order|;
    IndexFound(order, frags[order[k]].param);
  }

  lemma {:induction false} ChunkIs(t: Tables, frags: seq<Fragment>, order: seq<nat>, r: seq<nat>, k: nat, distance: int)
    requires Sound(t, frags, order) && |r| == |order| && k < |order|
    requires HasDisplacement(frags[order[k]].op) ==> distance == Distance(BackendOf(t, frags, order), r, k)
    ensures Chunks(t, frags, order, r)(k)
        == Emitted(t, frags, frags[order[k]], NeedsAt(t, frags, order, k), r[k], distance)
    ensures SizeAt(t, frags, order, k, r[k]) == Size(t, frags, frags[order[k]], NeedsAt(t, frags, order, k), r[k])
  {
    hide Body, BodySize, Prologue, Epilogue, NeedsAt, Position, Caps, Anchor;
    assert TargetAt(frags, order, k) < |order|;
    var f, needs := frags[order[k]], NeedsAt(t, frags, order, k);
    if !HasDisplacement(f.op) {
      X86Dump.OffsetDoesNotMatter(t, f, IsFramed(frags, f), r[k], OffsetAt(t, frags, f, needs, r[k], distance));
      X86Dump.OffsetDoesNotMatter(
        t, f, IsFramed(frags, f), r[k], OffsetAt(t, frags, f, needs, r[k], Distance(BackendOf(t, frags, order), r, k)));
    }
  }

  lemma {:induction false} DumpStarts(t: Tables, frags: seq<Fragment>, order: seq<nat>, r: seq<nat>, was: seq<byte>)
    requires |r| == |order|
    ensures Joined(Chunks(t, frags, order, r), 0) == [] && Position(BackendOf(t, frags, order), r, 0) == 0
    ensures Patched(was, 0, []) == was
  {
    PatchedNothing(was, 0);
  }

  /** The loop over the sequence (compile.c:914-918), with displacements from the position fields. */
  method DumpCode(t: Tables, frags: seq<Fragment>, order: seq<nat>, position: array<int>, relaxation: array<int>,
                  ghost r: seq<nat>, dst: array<byte>)
    requires Sound(t, frags, order) && |r| == |order| && Column(order, relaxation[..], r)
    requires PositionsUpTo(BackendOf(t, frags, order), order, position[..], r, |order|)
    requires dst.Length == Position(BackendOf(t, frags, order), r, |order|)
    modifies dst
    ensures |CodeBytes(t, frags, order, r)| == dst.Length
    ensures dst[..] == CodeBytes(t, frags, order, r)
  {
    hide Sound, Position, PositionsUpTo, Column, Emitted, Size, SizeAt, NeedsAt, Patched, Joined, Distance,
        HasDisplacement;
    ghost var b, chunks, was := BackendOf(t, frags, order), Chunks(t, frags, order, r), dst[..];
    var end := 0;
    var i := 0;
    DumpStarts(t, frags, order, r, was);
    while i < |order|
      invariant 0 <= i <= |order| && end == Position(b, r, i) == |Joined(chunks, i)| && end <= dst.Length
      invariant dst[..] == Patched(was, 0, Joined(chunks, i))
    {
      NextChunk(t, frags, order, r, i, was);
      RelaxationField(order, relaxation[..], r, i);
      Placed(t, frags, order, i);
      var f, relax := frags[order[i]], relaxation[order[i]];
      var distance := 0;
      if HasDisplacement(f.op) {
        FieldDistance(t, frags, order, r, position[..], i);
        distance := position[f.param] - position[order[i]];
      }
      ChunkIs(t, frags, order, r, i, distance);
      end := X86Dump.FragmentBinDump(t, frags, f, NeedsAt(t, frags, order, i), relax, distance, dst, end);
      i := i + 1;
    }
    Assembler.WholeBuffer(was, CodeBytes(t, frags, order, r));
  }

  lemma {:induction false} Placed(t: Tables, frags: seq<Fragment>, order: seq<nat>, k: nat)
    requires Sound(t, frags, order) && k < |order|
    ensures order[k] < |frags|
  {
    hide Position, Caps;
  }

  /** The whole compiler for x86-32.  The bytes are those of a layout in which every jump, call and
      pushed address leads to its target (X86Backend.JumpLands, X86Backend.AddressLands). */
  method CompileToMachineCode(t: Tables, lr: Option<Opcode -> bool>, tokens: seq<Token>, ghost m: nat)
    returns (ret: int, code: array<byte>, ghost r: seq<nat>)
    requires TablesWithin(t, m)
    requires Compiled(lr, tokens).Ok? ==> (2 * m + 15) * |Pipeline.LinkedCode(lr, tokens).order| < LIMIT
    ensures Compiled(lr, tokens).Err? ==> ret == Compiled(lr, tokens).code
    ensures Compiled(lr, tokens).Ok? ==>
      var c := Pipeline.LinkedCode(lr, tokens);
      && ret == code.Length && LaidOut(t, c.frags, c.order, r) && code[..] == CodeBytes(t, c.frags, c.order, r)
      && Smallest(t, c.frags, c.order, r)
  {
    hide Compiled, Sound, Solved, BelowSolved, CodeBytes, Partitioned, ValidOrder, TablesWithin, PositionsUpTo,
        Position, Smallest;
    code := new byte[0];
    r := [];
    var loop := new TokenLoop(lr);
    ret := loop.Run(tokens);
    if ret != 0 { return; }
    LinkedIsSoundForX86(t, lr, tokens, m);
    Assembler.OrderIsValid(lr, tokens);
    var frags := loop.allFragments;
    var order := Assembler.OrderFragments(frags, loop.sequence);
    var position := new int[|frags|](_ => 0);
    var relaxation := new int[|frags|](_ => 0);
    X86IsLawful(t, frags, order);
    Assembler.InRange(order, |frags|);
    var codeLen;
    codeLen, r := Solve(BackendOf(t, frags, order), order, position, relaxation);
    LengthIs(BackendOf(t, frags, order), r, |order|);
    code := new byte[codeLen](_ => 0);
    DumpCode(t, frags, order, position, relaxation, r, code);
    ret := code.Length;
    LaidOutIsSmallest(t, frags, order, r);
  }

  lemma {:induction false} LengthIs(b: Backend, r: seq<nat>, k: nat)
    requires k <= |r|
    ensures Position(b, r, k) >= 0
  {
  }
}
