/** Every accepted source, as x86 code on the processor: from the start of the program, leaving out
    chores changes nothing (compile.c:475-918, x86-32_backend.c:351-600, mcp_forth.c:372-398). */
module X86Accepted {
  import opened Common
  import opened Fragments
  import opened FrontEnd
  import opened Conservation
  import opened Grammar
  import opened Program
  import opened Linking
  import opened X86Backend
  import opened X86Machine
  import opened X86Meaning
  import opened X86Running
  import C = Chores
  import Pipeline
  import Structured
  import VmBackend
  import X86Elision

  lemma {:induction false} EntryStands(c: Code, items: seq<Item>)
    requires MainPlaced(c, items)
    ensures At(c, 0, 0, Entry, 0)
    decreases |items|
  {
    hide At, Placed;
    if items != [] { EntryStands(c, items[..|items| - 1]); }
  }

  lemma {:induction false} StartsAtEntry(lr: Option<Opcode -> bool>, ts: seq<Token>)
    requires Compiled(lr, ts).Ok?
    ensures var c := Pipeline.LinkedCode(lr, ts); c.order != [] && X86Elision.IsEntry(c.frags, c.order, 0)
  {
    hide Compiled, SourceWellFormed, SourceText, AllPlaced, MainPlaced, Linked, Invariant;
    var items := Structured.AcceptedIsStructured(lr, ts);
    StructuredIsAccepted(lr, items);
    AllPlacedOnSuccess(lr, ts);
    LinkingPlaces(CodeOf(Compiled(lr, ts).value), items);
    EntryStands(Pipeline.LinkedCode(lr, ts), items);
  }

  /** The tables of the engine have room for fewer slots and callbacks than this. */
  const TABLE_ROOM := 0x2000_0000

  ghost predicate IndicesFit(frags: seq<Fragment>) {
    forall i :: 0 <= i < |frags| && frags[i].op in {UseVariableOrConstant, PushCallback} ==>
      0 <= frags[i].param < TABLE_ROOM
  }

  lemma {:induction false} LinkedNumbersFit(lr: Option<Opcode -> bool>, ts: seq<Token>)
    requires Pipeline.Accepted(lr, ts) && IndicesFit(Compiled(lr, ts).value.frags)
    ensures NumbersFit(Pipeline.LinkedCode(lr, ts).frags)
  {
    hide Compiled;
    Pipeline.CompiledParams(lr, ts);
    var frags := Compiled(lr, ts).value.frags;
    forall i | 0 <= i < |frags| ensures NumberFits(frags[i]) {
      assert VmBackend.ParamOk(frags[i]);
    }
  }

  /** The code of an accepted source with chores left out, and the same code with all of them, run from
      the start of the program: after any number of fragments both have stopped, in the same state, or
      neither has. */
  lemma {:induction false} AcceptedMayElide(lr: Option<Opcode -> bool>, ts: seq<Token>, m: Image, n: nat, c: Machine)
    requires Pipeline.Accepted(lr, ts) && IndicesFit(Compiled(lr, ts).value.frags)
    requires var code := Pipeline.LinkedCode(lr, ts);
      m.frags == code.frags && m.order == code.order && LaidOut(m.t, code.frags, code.order, m.r)
    requires ChoresAre(m.t) && X86Elision.TablesOk(m.t) && BuiltinsClobber(m.t)
    ensures var full := C.Run(ProgramOf(m), false, n, C.At(0, c));
      var elided := C.Run(ProgramOf(m), true, n, C.At(0, c));
      (full.Stopped? <==> elided.Stopped?) && (full.Stopped? ==> full == elided)
  {
    hide Pipeline.Accepted, Pipeline.LinkedCode, Compiled, LaidOut, ChoresAre, X86Elision.TablesOk, BuiltinsClobber,
        NumbersFit, C.Run, X86Elision.IsEntry, IndicesFit;
    AcceptedCompiles(lr, ts);
    LinkedNumbersFit(lr, ts);
    StartsAtEntry(lr, ts);
    CodeMayElide(m, n, 0, c);
  }

  lemma {:induction false} AcceptedCompiles(lr: Option<Opcode -> bool>, ts: seq<Token>)
    requires Pipeline.Accepted(lr, ts)
    ensures Compiled(lr, ts).Ok?
  {
  }
}
