/** The compiler's own steps one after the other (compile.c:475-820, 914-918): token loop, main code
    to the front, relaxation, dump.  What comes out is what the pipeline theorem is about. */
module Assembler {
  import opened Common
  import opened Fragments
  import opened NumCodec
  import opened FrontEnd
  import opened Conservation
  import opened Compiler
  import opened Partition
  import opened Relaxation
  import opened VmBackend
  import opened VmMachine
  import opened Pipeline

  /** The sequence, with main-program fragments first. */
  method OrderFragments(frags: seq<Fragment>, sequence: seq<nat>) returns (order: seq<nat>)
    requires forall i :: 0 <= i < |sequence| ==> sequence[i] < |frags|
    ensures order == Partitioned(frags, sequence)
  {
    var a := new nat[|sequence|](i requires 0 <= i < |sequence| => sequence[i]);
    assert a[..] == sequence;
    MoveMainToFront(frags, a);
    order := a[..];
  }

  /** Positions and relaxations, found by the loop, and the bytes they lead to. */
  method LayOutAndDump(frags: seq<Fragment>, order: seq<nat>) returns (code: array<byte>, ghost r: seq<nat>)
    requires Sound(frags, order) && 6 * |order| < LIMIT && ValidOrder(order, |frags|)
    ensures fresh(code) && |r| == |order|
    ensures Solved(BackendOf(frags, order), r) && BelowSolved(BackendOf(frags, order), r)
    ensures Smallest(frags, order, r)
    ensures code[..] == CodeBytes(frags, order, r, |order|)
  {
    hide Sound, Solved, BelowSolved, Position, PositionsUpTo, LaidOut, CodeBytes, ValidOrder, Smallest;
    var position := new int[|frags|](_ => 0);
    var relaxation := new int[|frags|](_ => 0);
    var b := BackendOf(frags, order);
    VmBackendIsLawful(frags, order);
    InRange(order, |frags|);
    var codeLen;
    codeLen, r := Solve(b, order, position, relaxation);
    assert |r| == |order|;
    SolutionIsLaidOut(frags, order, r);
    LeastIsSmallestInRange(frags, order, r);
    CodeLength(frags, order, r, |order|);
    code := new byte[codeLen](_ => 0);
    ghost var was := code[..];
    var end := DumpCode(frags, order, position, relaxation, r, code, 0);
    WholeBuffer(was, CodeBytes(frags, order, r, |order|));
  }

  lemma {:induction false} InRange(order: seq<nat>, n: nat)
    requires ValidOrder(order, n)
    ensures forall k :: 0 <= k < |order| ==> order[k] < n
  {
  }

  lemma {:induction false} WholeBuffer(was: seq<byte>, bytes: seq<byte>)
    requires |was| == |bytes|
    ensures Patched(was, 0, bytes) == bytes
  {
  }

  lemma {:induction false} OrderIsValid(lr: Option<Opcode -> bool>, ts: seq<Token>)
    requires Compiled(lr, ts).Ok?
    ensures var st := Compiled(lr, ts).value;
      && (forall i :: 0 <= i < |st.sequence| ==> st.sequence[i] < |st.frags|)
      && ValidOrder(Partitioned(st.frags, st.sequence), |st.frags|)
  {
    hide Compiled, Partitioned, Counted, TargetAt;
    AllPlacedOnSuccess(lr, ts);
    var st := Compiled(lr, ts).value;
    PartitionedNoRepeats(st.frags, st.sequence);
    forall k | 0 <= k < |Partitioned(st.frags, st.sequence)|
      ensures Partitioned(st.frags, st.sequence)[k] < |st.frags|
    {
      TargetPlaced(st, k);
    }
  }

  /** An accepted source becomes the bytes of its linked code, laid out as small as possible, so
      an engine given them runs what PipelinePreservesMeaning speaks of.  A refused one gives the
      error of the front end. */
  method CompileToByteCode(lr: Option<Opcode -> bool>, tokens: seq<Token>)
      returns (ret: int, code: array<byte>, ghost r: seq<nat>)
    requires forall i :: 0 <= i < |tokens| ==> TokenOk(tokens[i])
    requires Compiled(lr, tokens).Ok? ==> 6 * |LinkedCode(lr, tokens).order| < LIMIT
    ensures Compiled(lr, tokens).Err? ==> ret == Compiled(lr, tokens).code
    ensures Compiled(lr, tokens).Ok? ==>
      ret == code.Length && Smallest(LinkedCode(lr, tokens).frags, LinkedCode(lr, tokens).order, r)
    ensures Compiled(lr, tokens).Ok? ==>
      forall vm: Vm :: vm.image.org > 0 && vm.image.code == code[..] ==> Built(vm, lr, tokens, r)
  {
    hide Compiled, Sound, Solved, BelowSolved, CodeBytes, TokenOk, Partitioned, ValidOrder, Smallest;
    code := new byte[0];
    r := [];
    var loop := new TokenLoop(lr);
    ret := loop.Run(tokens);
    if ret != 0 { return; }
    assert Compiled(lr, tokens).Ok?;
    OrderIsValid(lr, tokens);
    LinkedIsSound(lr, tokens);
    var order := OrderFragments(loop.allFragments, loop.sequence);
    code, r := LayOutAndDump(loop.allFragments, order);
    ret := code.Length;
    forall vm: Vm | vm.image.org > 0 && vm.image.code == code[..] ensures Built(vm, lr, tokens, r) {
      WholeImage(vm.image.code, CodeBytes(loop.allFragments, order, r, |order|));
    }
  }

  lemma {:induction false} WholeImage(code: seq<byte>, bytes: seq<byte>)
    requires code == bytes
    ensures |bytes| <= |code| && code[..|bytes|] == bytes
  {
  }
}
