# MCP-Forth: a verified model of the compile-and-run pipeline

MCP-Forth compiles Forth source to flat fragments, moves the main program to the front, picks the
size of every displacement by relaxation, dumps byte code or machine code behind a binary header,
and runs byte code on a stack machine whose words may leave cells on the return stack. This project
models that pipeline, the x86-32 emitter with its chore elision, and the blocking queue of the
thread utilities, and proves what they are for.

`dafny verify dfyconfig.toml` checks the whole project.

## The chain of meaning

1. `FrontEnd`, `Compiler`: the token loop, as a function on states and as the object with growing
   arrays that the source has. `Conservation`: what every token keeps.
2. `Grammar`, `SideConditions`, `Structured`, `Placement`, `Program`, `Refusals`: structured programs,
   their text and the places of their fragments. The token loop accepts a token sequence exactly when
   it is the text of a well-nested source, and refuses the others at the first word after which
   nothing could be added to make one.
3. `Semantics`, `DoLoops`, `Words`: the big-step meaning of a structured source, with fuel that counts
   loop rounds and calls; `LOOP` increments with 32-bit wrap-around and goes on while below the limit.
4. `FragmentMachine`, `Simulation`: a machine that runs fragments where they stand does what the
   structured program means.
5. `Partition`, `Linking`, `SourceMeaning`: the in-place partition, and the meaning of the linked
   program.
6. `NumCodec`, `Relaxation`, `Dumping`, `VmBackend`: the number code, the relaxation loop over any
   backend, and the byte code backend.
7. `VmMachine`, `VmEngine`, `Frames`: the byte code engine on values and as an object with stack
   buffers; calls, exits and callbacks on the flat return stack.
8. `ByteDecoding`, `ByteSimulation`, `Pipeline`, `Assembler`: the image decodes to the fragments, the
   byte machine follows the fragment machine, and so the engine does what the source means.
   `ExecutionTokens`, `Inside`, `Callbacks`: execution tokens, where the model ends, and callbacks, in
   every such image.

Native code: `Chores`, `X86Elision`, `Generator`, `X86Backend`, `X86Dump`, `X86Assembler` size, elide and
emit it; `X86Machine`, `X86Meaning`, `X86Control`, `X86Simulation` say what the emitted bytes of each
fragment do on the processor, and that this is what the fragment means; `X86Running` runs the laid-out
code, with chores left out, `X86Accepted` carries that to every accepted source, and `X86Frames` follows
the frame pointer.

Beside these: `Header`, `HeaderTables`, `HeaderCode`, `CallbackSignature`, `StringLiterals`, `LiteralPool`
(the image around the code); `NestedCalls`, `LoopsFlag` (the flags of a word); `Queue`, `QueueProtocol`
(the monitor).

What builtins, runtime words and thread operations do to the data stack and the world is a
parameter (`Semantics.Env`); so are the x86 builtin table and its chores (`X86Backend.Tables`), and
the bodies of fragments in the elision theorem. Addresses are integers that do not wrap, the image
stands above address 0, and 32-bit arithmetic is written out where the source relies on it.

## Where the code decides

- `LOOP` ends when the incremented index is not below the limit (vm_engine.c:694-699), not when it
  equals the limit as section 6.1.1800 of Forth 2012 has it. `UNLOOP` does nothing: `EXIT` cuts the
  return stack by itself (compile.c:752-753).
- A do-loop whose body leaves the return cells alone goes round max(1, limit - start) times exactly
  when start is not the largest 32-bit number or limit is the smallest: `DoLoops.LoopRoundsExact`.
  `DoLoops.LargestStartGoesOn` runs `0 2147483647 do loop`, where the index wraps.
- A queue operation signals once, whoever waits, so with two threads waiting for an item a wake-up
  can be lost: `QueueProtocol.TwoGettersCanMissAWakeup` gives the interleaving. None is lost exactly
  when no signal is given while two threads wait for it: `QueueProtocol.RunWakeupsExact`.
- x86 code looks neither at the room on its stacks nor at the memory that a variable takes: what
  `X86Simulation` says of a fragment holds where there is room.
- On x86-32 the unrelaxed form of a pushed word address is never used in a layout:
  `X86Backend.UnrelaxedAddressNeverFits`.

## Model

| member | source | states |
|---|---|---|
| Pipeline.PipelinePreservesMeaning | vm_engine.c:172-749 | for every accepted token sequence, every source with that text and every world, the engine run on the relaxed image ends with an observation if and only if the structured meaning has it; so both also run for ever together |
| Pipeline.MeaningIsRun | compile.c:475-820 | an outcome of the source with any fuel is reached by the engine, with the same stack, world or error code |
| Pipeline.RunIsMeaning | vm_engine.c:172-749 | whatever the engine stops with is an outcome of the source, as long as the source stays inside the model |
| Pipeline.LinkedIsSound | compile.c:631-799 | in the linked code every branch, call and word address names a fragment that has a place |
| Pipeline.TokenOkExactly | mcp_forth.c:236-253 | what is asked of the parameter of a token: that the engine can read it back, and for a builtin one of the 63 of the table |
| Inside.StaysInsideExactly | vm_engine.c:172-749 | the premise of the pipeline theorem, step by step: a source stays inside the model if and only if no word of its run reads or pops return cells that are not its own or executes what is no execution token |
| Inside.StraysExactly | vm_engine.c:287-294 | at a fragment the machine leaves the model exactly then |
| Inside.ControlStaysInCode | vm_engine.c:172-749 | in every run of an accepted program the running word and the suspended ones go on at places of the code; nothing falls off its end |
| Inside.EngineStaysInside | vm_engine.c:172-749 | the engine then meets no unknown instruction and no cell outside its stacks |
| Inside.FramesInEveryRun | vm_engine.c:626-724 | and at every instruction its flat return stack is a chain of frames, one for each suspended word |
| ExecutionTokens.FindsFirst | vm_engine.c:716-724 | a word is found by its token exactly when some word has it, and then the first |
| ExecutionTokens.TokensGrow | vm_engine.c:702-706 | in every image the words have different addresses, in the order of their definition |
| ExecutionTokens.ExecuteIsCallInImage | vm_engine.c:702-724 | in every image `' word execute` has the outcome of `word`, given room for the token |
| Callbacks.CallbackMeansWord | vm_engine.c:62-84 | wherever a run is interrupted, a callback into a word does what the word means with the arguments on the stack, and hands back return stack and frame base |
| Assembler.CompileToByteCode | compile.c:475-918 | token loop, partition, relaxation and dump one after the other return the front end's error, or the smallest bytes about which the pipeline theorem speaks |
| Assembler.LayOutAndDump | compile.c:801-918 | layout and dump of a sound order give exactly the concatenated fragment bytes, every displacement in the signed range of its bits, and no layout of which that is true has a smaller relaxation or an earlier position anywhere |
| Program.AcceptanceIsExact | compile.c:475-788 | the token loop accepts a token sequence if and only if it is the text of a well-nested source whose side conditions hold |
| Program.StructuredIsAccepted | compile.c:475-788 | a well-formed source is accepted, and its definitions and top-level code stand where structured control flow calls for |
| SideConditions.WellFormedExactly | compile.c:475-785 | the side conditions hold if and only if every single word is allowed where it stands: `i` in a loop, `j` in two, declarations outside words, `exit` and `recurse` inside |
| Refusals.RefusedExactly | compile.c:475-788 | a refused source has a first word after which nothing could be added to make a source, and the error is the one that this word raises with what is open before it; or all words can go on and something is open at the end |
| Refusals.PrefixesExactly | compile.c:475-785 | the token loop goes through exactly the beginnings of well-formed sources |
| Refusals.CanBeCompleted | compile.c:631-716 | whatever is open after some words can be closed |
| Structured.AcceptedIsStructured | compile.c:631-716 | from an accepted token sequence a structured source with that text can be read off |
| Placement.Compiles | compile.c:631-716 | compiling a structured statement in any state grows the sequence by its fragments, places each, patches each branch to the right location and leaves the control-flow stack as it was |
| Conservation.StepKeepsInvariant | compile.c:475-785 | every accepted token keeps: each fragment placed once or pending once, sound references, WHILE directly on BEGIN |
| Conservation.RunKeepsInvariant | compile.c:475-785 | the invariant holds after any accepted sequence of tokens |
| Conservation.PlacedPlusPending | compile.c:321-337 | the number of fragments is the sequence length plus the pending IF, ELSE and WHILE entries, and the sequence has no repeats |
| Conservation.AllPlacedOnSuccess | compile.c:786-788 | when compilation succeeds every fragment has been placed exactly once |
| Conservation.RepeatChecksNeverFail | compile.c:696-708 | below a WHILE entry there is always a BEGIN entry, so the last two checks of `repeat` never fail |
| Compiler.TokenLoop.Run | compile.c:475-788 | the loop over growing arrays ends with the error or the state that the step function defines |
| Compiler.TokenLoop.Process | compile.c:475-785 | one turn of the loop, whatever the token, does what the step function defines |
| Compiler.TokenLoop.UpdateDefinedWordNestedCallParam | compile.c:339-357 | the backward loop sets the CALLS flag exactly when the specified scan finds a use of the link register |
| Compiler.TokenLoop.LoopIndexAllowed | compile.c:497-513 | the loop over the control-flow stack decides whether enough do-loops are open for `i` or `j` |
| Partition.MoveMainToFront | compile.c:790-799 | the in-place loop with its memmove leaves the main-program fragments followed by the word fragments, each kind in its old order |
| Partition.MovesTo | compile.c:790-799 | no fragment is lost: the one at each place stands at its new place |
| Partition.SameLength | compile.c:790-799 | no fragment is added |
| Partition.StableOrder | compile.c:790-799 | the two kinds are separated and each keeps its order |
| Partition.BlockMoves | compile.c:790-799 | a stretch of one kind moves as a block |
| Partition.PartitionedNoRepeats | compile.c:790-799 | a sequence without repeats has none afterwards |
| Linking.LinkingPlaces | compile.c:786-799 | after the partition every definition is in one piece from its location to its exit, and the pieces of main code follow one another from ENTRY to HALT, so nothing falls through into another block |
| Simulation.Simulates | compile.c:631-716 | started where a structured statement stands, the fragment machine ends, exits its word, fails or goes on exactly as the big-step meaning says, with the same stacks and world |
| SourceMeaning.RunsSource | compile.c:475-799 | the linked program, from ENTRY, reaches the outcome of the source, and takes at least as many steps as there was fuel when the outcome is not reached |
| SourceMeaning.StopsExactlyAsMeant | compile.c:475-799 | the fragment machine stops in some way if and only if the source means that |
| DoLoops.LoopGoesRound | vm_engine.c:681-701 | every do-loop, whatever its body, limit and start: the index of round k is start + k with wrap-around; if the rounds leave the cells alone there are exactly as many as counting with wrap-around gives, and the loop ends with its cells gone; a round whose body fails, leaves or goes on for ever is what the loop does |
| DoLoops.LoopRoundsExact | vm_engine.c:689-701 | when every round leaves the cells alone there are max(1, limit - start) of them if and only if start is not the largest number or limit is the smallest |
| DoLoops.RoundsExact | vm_engine.c:689-701 | counting up with 32-bit wrap-around takes max(1, limit - start) steps under just that condition |
| DoLoops.IndexInRound | vm_engine.c:287-294 | in round k `i` pushes that round's index, and `j` does from a loop inside it |
| DoLoops.IndexDoesNotWrap | vm_engine.c:689-701 | from any start but the largest number the index of round k is start + k |
| DoLoops.DoStartsLoop | vm_engine.c:681-687 | `do` moves limit and start to the return stack, and the loop is its rounds from there |
| DoLoops.LargestStartGoesOn | vm_engine.c:689-701 | an empty loop from 2147483647 to 0 does not end after one round but after 2147483649 |
| Words.LiteralIsPushed | vm_engine.c:645-647 | a literal is pushed where there is room, and refused where there is none |
| Words.AddressIsPushed | vm_engine.c:655-709 | so are a data address and a callback target |
| Words.ToRFromIsNothing | vm_engine.c:490-501 | `>r r>` changes nothing, and fails exactly for want of a number or of room |
| Words.FetchIsCopy | vm_engine.c:599-605 | after `>r`, `r@` and `i` give a copy and leave the cell |
| Words.TwoToRFromIsNothing | vm_engine.c:502-517 | `2>r 2r>` changes nothing |
| Words.TwoToRKeepsOrder | vm_engine.c:495-509 | `2>r` leaves the upper number on top |
| Words.VariableIsCell | vm_engine.c:658-665 | `variable v` takes the next aligned cell, `v` pushes its address from then on, and it is refused exactly when the cell does not end in the memory |
| Words.VariablesApart | vm_engine.c:658-668 | two variables have cells that do not overlap, whatever happens in between while the data space is not given back |
| Words.ConstantIsValue | vm_engine.c:710-715 | `x constant c` takes x off, and `c` pushes it from then on |
| Words.ConstantComesBack | vm_engine.c:666-715 | `x constant c c` leaves x |
| Words.OthersStay | vm_engine.c:658-715 | a declaration changes nothing that the words of other slots push |
| Words.OutsideWordsAct | vm_engine.c:183-652 | a builtin, a runtime word and a thread word do to stack and world what their action does, and leave the return cells alone |
| NumCodec.RoundTrip | mcp_forth.c:199-253 | decoding any 32-bit number's encoding, padded to any size and followed by anything, gives the number and uses exactly the bytes written |
| NumCodec.ComesBackExactly | mcp_forth.c:199-253 | exactly the 32-bit numbers come back |
| NumCodec.EncodedLength | mcp_forth.c:205-228 | an encoding fills its field exactly when the number fits the field |
| NumCodec.EncodedAt | mcp_forth.c:205-228 | the bytes one by one: seven bits of the number each, low group first, bit 7 set on all but the last, the sign in bit 6 of the last |
| NumCodec.EncodedSizeExact | mcp_forth.c:184-197 | a number needs at most s bytes if and only if it lies from -2^(7s-1) up to 2^(7s-1) |
| NumCodec.Int32FitsFive | mcp_forth.c:207 | five bytes hold every 32-bit number |
| NumCodec.EncodedSizeFromInt | mcp_forth.c:184-197 | the shifting loop counts the groups of seven bits |
| NumCodec.EncodeWithSize | mcp_forth.c:205-228 | the two writing loops put exactly the padded encoding in the buffer and change nothing else |
| NumCodec.EncodedSizeFromEncoded | mcp_forth.c:230-234 | the loop finds the first byte whose bit 7 is clear |
| NumCodec.DecodeAt | mcp_forth.c:236-253 | the backward loop over a 32-bit accumulator returns the number and the bytes used |
| Relaxation.Solve | compile.c:801-820 | over any lawful backend the loop halts, with positions that are the running sums of the final sizes, every displacement fitting, and no fitting assignment anywhere below |
| Relaxation.AssignPositions | compile.c:806-810 | the first half of a round assigns the running sums of the sizes |
| Relaxation.BumpMisfits | compile.c:812-819 | the second half relaxes by one exactly the fragments whose displacement does not fit, and reports whether there were none |
| Relaxation.LeastIsSmallest | compile.c:801-820 | the result is pointwise below every feasible assignment, and so are all positions and the code length |
| Relaxation.LeastIsUnique | compile.c:801-820 | there is only one such result |
| Relaxation.PassRaises | compile.c:804-820 | a pass that is not the last raises a sum that is bounded by the caps |
| VmBackend.VmBackendIsLawful | vm_backend.c:3-61 | the byte code backend meets the laws of the relaxation loop, with cap 4 |
| VmBackend.RepresentableExactly | vm_backend.c:44-61 | x + 1 bytes hold a displacement if and only if it lies in the signed range of 7 (x + 1) bits |
| VmBackend.SolvedExactly | compile.c:812-820 | a layout is solved if and only if every displacement lies in its range |
| VmBackend.OperandSizes | vm_backend.c:3-42 | 42 builtins take one byte and 21 take two; an operand takes s bytes or fewer exactly when it fits; locations take none |
| VmBackend.FirstByte | mcp_forth.h:47-71 | a fragment begins with the place of its opcode in the enum, and one of the first 42 builtins with its place behind the opcodes |
| VmBackend.SizeAgrees | vm_backend.c:3-107 | where the operand is representable, as many bytes are written as were reserved |
| VmBackend.FragmentBinDump | vm_backend.c:63-107 | the dump writes exactly the bytes of the fragment at the pointer and changes nothing else |
| VmBackend.DumpCode | compile.c:914-918 | the loop over the sequence writes the whole code section, each displacement computed from the position fields |
| VmBackend.ChunkStands | compile.c:914-918 | every fragment's bytes stand at its position |
| ByteDecoding.DecodesAt | vm_engine.c:172-182 | at a fragment's address the engine reads back its opcode and operand, also in the one-byte builtin form, and is then at the address of the next fragment |
| ByteSimulation.StepMatches | vm_engine.c:172-749 | one decoded instruction leaves the byte machine where the fragment leaves the fragment machine: stacks, frame base, pc, world or error |
| ByteSimulation.BytesFollow | vm_engine.c:172-749 | after any number of instructions the byte machine shows what the fragment machine shows after at least as many steps |
| ByteSimulation.BytesStop | vm_engine.c:172-749 | when the fragment machine has stopped, the byte machine has stopped in the same way |
| ByteSimulation.FragmentsStop | vm_engine.c:172-749 | when the byte machine has stopped, the fragment machine stops in the same way |
| ByteSimulation.ExitMatches | vm_engine.c:648-654 | EXIT_WORD on the flat return stack restores the frame of the caller |
| Frames.StepKeepsFrames | vm_engine.c:626-724 | in any byte code, an instruction that keeps above its frame base leaves a chain of frames: a call adds the caller, an exit takes it off, anything else leaves the chain alone |
| Frames.RunKeepsFrames | vm_engine.c:626-724 | the return stack is a chain of frames throughout such a run |
| Frames.CallIsUndone | vm_engine.c:626-654 | when the callee's frame is gone, return stack, frame base and pc are what they were at the call, whatever the callee left or called |
| Frames.CallbackIsUndone | vm_engine.c:62-84 | a callback that returns through its word leaves the interrupted word's return stack and frame base as they were |
| VmEngine.Engine.StepOnce | vm_engine.c:172-749 | one turn of run_inner on the context object does what the byte machine defines |
| VmEngine.Engine.RunInner | vm_engine.c:172-749 | any number of turns does what the byte machine does |
| VmEngine.RoomyExactly | vm_engine.c:183-652 | what the engine asks of the words from outside is just what keeps every word within the hundred cells of the data stack |
| VmEngine.Engine.ExitWordCase | vm_engine.c:648-654 | the return stack is cut to the frame base, then address and caller's base come off; a null address returns |
| VmEngine.Engine.LoopWord | vm_engine.c:689-701 | two cells off, increment, and back on while below the limit |
| VmEngine.Engine.CallbackHandle | vm_engine.c:62-84 | arguments, sentinel frame and nested run: when the run returns, pc is as before and the result comes off the stack; otherwise its error, its state when it has to go on, or the missing result is what the caller gets |
| VmEngine.CellStack.Pop | vm_engine.c:46-52 | takes the top cell off, or reports an empty stack and changes nothing |
| VmEngine.CellStack.Push | vm_engine.c:54-60 | puts a cell on, or reports a full stack and changes nothing |
| Chores.ElisionPreservesMeaning | mcp_forth.c:372-398 | with any bodies and memory, code with the chores left out and code with all of them are at the same place after any number of fragments, stop together in the same state, and agree wherever nothing is left out |
| Chores.StepAgrees | mcp_forth.c:372-398 | one fragment keeps the relation between the two machines, with elision on either side of it |
| Chores.NeighboursDecideAlike | mcp_forth.c:376-396 | exactly which chores the two sides of a boundary leave out: room together, the store where the register was just loaded from that cell, the load where the body overwrites it unread |
| Chores.EndsKeepTheirs | mcp_forth.c:376-396 | the first fragment keeps the chores before it and the last those behind it |
| X86Elision.EntriesAreClear | x86-32_backend.c:124-173 | nothing is left out across a branch target, a call, a word start or the program start |
| X86Assembler.ControlMeetsChores | compile.c:631-799 | in the linked code of accepted tokens these are the places where branches and calls lead and word addresses point, behind calls, and at the start |
| X86Elision.X86ElisionPreservesMeaning | x86-32_backend.c:351-600 | with the x86 flags the code with elided chores ends as the code with every chore |
| X86Assembler.LinkedIsSoundForX86 | compile.c:631-799 | accepted tokens give the native backend code in which every jump, call and word address has a placed target, below 2^31 bytes |
| X86Assembler.CompileToMachineCode | compile.c:475-918 | token loop, partition, relaxation and dump return the front end's error, or exactly the bytes of the smallest layout in which every short form reaches, and whose jumps, calls and addresses land |
| X86Assembler.DumpCode | compile.c:914-918 | the loop over the sequence writes the whole x86 code section, each displacement computed from the position fields |
| Generator.Strip | backend_generator.py:53-65 | the flags and the lines that are left account for the builtin's source exactly, and B implies A, CLOB implies B, Y implies Z |
| Generator.FindsAll | backend_generator.py:53-65 | four chores around other lines are all found and taken off |
| Generator.FindsRoomOnly | backend_generator.py:53-65 | room made and given back is found alone when the store and the load are not there |
| Generator.FindsNone | backend_generator.py:53-65 | a builtin that begins and ends with other lines gets no flag and keeps every line |
| Generator.GenerateBuiltins | backend_generator.py:44-82 | every table entry selects in the code array exactly the assembled rest of its builtin |
| X86Backend.X86IsLawful | x86-32_backend.c:175-313 | the x86 backend meets the laws of the relaxation loop, with caps 1 and 2 |
| X86Backend.SolvedExactly | x86-32_backend.c:270-313 | an x86 layout is solved if and only if every short form reaches its target: from -128 to 127 from where its displacement counts |
| X86Backend.LaidOutIsSmallest | compile.c:801-820 | no layout whose short forms reach has a smaller relaxation, an earlier position or a shorter code anywhere |
| X86Backend.BodyLength | x86-32_backend.c:175-600 | for every opcode the emitter writes as many bytes as the size switch reserves |
| X86Backend.EmissionAgreesWithSizing | x86-32_backend.c:175-600 | chores included, each fragment's dump has exactly its size and stands at its position |
| X86Backend.JumpLands | x86-32_backend.c:363-515 | every emitted jz, jl, jmp and call, short or long, leads exactly to its target fragment |
| X86Backend.AddressLands | x86-32_backend.c:516-548 | every pushed word address is the position of the word |
| X86Backend.UnrelaxedAddressNeverFits | x86-32_backend.c:291-306 | no layout keeps relaxation 0 for a pushed word address |
| X86Dump.FragmentBinDump | x86-32_backend.c:351-600 | needed chores, body and needed chores are written through the moving pointer, and nothing else changes |
| X86Frames.ExitsGiveBackFrames | x86-32_backend.c:387-398 | in every layout of accepted tokens `leave ret` stands at an exit exactly when `push ebp; mov ebp, esp` stands at the start of its word, and `ret` alone otherwise |
| X86Frames.StartSavesExactly | x86-32_backend.c:393-398 | a word saves the frame pointer if and only if some `exit` of its body stands under a do-loop |
| X86Control.FrameComesBack | x86-32_backend.c:387-398 | a word with a frame comes back to its caller with the return stack and frame pointer of the caller, however many cells it has left |
| X86Control.CallFragment | x86-32_backend.c:363-367 | a call goes to its target and leaves the address of the next fragment |
| X86Control.ExecuteFragment | x86-32_backend.c:566-575 | `execute` takes the token off the stack and calls it |
| X86Control.RuntimeFragment | x86-32_backend.c:368-377 | a runtime word puts the entry of its table in ecx and calls the runtime function |
| X86Simulation.PushMeans | x86-32_backend.c:378-439 | the code of a literal, data address, variable, constant or callback does on the processor what the word means: it represents the new stacks and world |
| X86Simulation.AddressMeans | x86-32_backend.c:516-548 | so does the code of `' word` |
| X86Simulation.ConstantMeans | x86-32_backend.c:559-565 | so does the code of `constant` |
| X86Simulation.VariableMeans | x86-32_backend.c:415-432 | so does the code of `variable`, where there is room |
| X86Simulation.BranchMeans | x86-32_backend.c:445-465 | `if`, `until` and `while` take the flag off and branch exactly when it is zero |
| X86Simulation.DoMeans | x86-32_backend.c:479-488 | so does the code of `do` |
| X86Simulation.LoopMeans | x86-32_backend.c:489-515 | `loop` counts up with wrap-around, goes back exactly while below the limit, and takes its cells off at the end |
| X86Simulation.EveryStateIsRepresented | x86_32_backend_generator.py:4-31 | every state of the source has a representation in registers and memory |
| X86Simulation.RepresentsOne | x86_32_backend_generator.py:4-31 | and no two: data stack, data-space pointer, slots and, from the top, return cells can be read off registers and memory |
| X86Running.CodeSteps | x86-32_backend.c:351-600 | the emitted bytes of each place of a layout, run on the processor, are a step of the program with chores left out |
| X86Running.FullCodeSteps | x86-32_backend.c:351-600 | the code of the place with all its chores is a step of the program with nothing left out |
| X86Running.CodeMayElide | mcp_forth.c:372-398 | on the processor the code with chores left out ends as the code with all of them, given that builtins flagged CLOB ignore the top |
| X86Accepted.AcceptedMayElide | compile.c:475-918 | so it is for every accepted source, in any layout, from the start of the program |
| Writing.SerLe32AndInc | x86-32_backend.c:321-330 | the loop writes the four bytes of a 32-bit number, low byte first |
| LittleEndian.Le32Is | x86-32_backend.c:321-330 | the four bytes one by one |
| Header.HeaderRoundTrip | mcp_forth.c:268-370 | unpacking a written header, whatever follows it, gives the tables that were meant, or the error of the first check that fails |
| Header.WritableExactly | mcp_forth.c:268-370 | what is asked of the contents of a header: that each count, position, name and literal by itself comes back from its bytes |
| Header.SectionsUsable | compile.c:883-912 | the data bytes stand where the tables say, the literals at a multiple of four with their values, and the code at a multiple of four |
| HeaderTables.WordsLink | mcp_forth.c:289-329 | every runtime word is linked to the first entry of the tables with its name in small letters |
| HeaderTables.WordIsMissing | mcp_forth.c:289-329 | a header is refused for a missing word only if there are no tables or some word is in none of them |
| HeaderTables.RefusedExactly | mcp_forth.c:268-370 | which check refuses a written header, in terms of its counts, names and the memory, and that it is unpacked if none does |
| HeaderTables.TablesFit | mcp_forth.c:268-370 | variables, words, signatures and callback addresses have room of their own, aligned, within the memory |
| HeaderCode.UnpackBinaryHeader | mcp_forth.c:268-370 | the cursor loops compute the specified outcome on every image, also a malformed one |
| HeaderCode.FindEntry | mcp_forth.c:307-325 | the search through the runtime tables finds the first entry with the name |
| HeaderCode.BinLength | compile.c:822-862 | the summed lengths are the length of the header that is written, and the image length is aligned |
| HeaderCode.DumpHeader | compile.c:868-912 | the writing loops produce exactly the header and change nothing behind it |
| CallbackSignature.ScanComment | compile.c:555-570 | the loop over the words of a stack comment finds the counts that the comment means, or the end of the source |
| CallbackSignature.CommentExactly | compile.c:555-570 | in any words the comment goes on to the first that ends with `)`, or the source is refused; parameters are the names before the first `--` and results those behind it, the last also with `)` glued to it |
| CallbackSignature.CommentComesBack | compile.c:555-576 | `c'` accepts a word with the comment `( p1 .. pm -- r1 .. rn )` if and only if m is 1 to 8 and n at most 1, and then the engine reads m parameters and whether there is a result out of the header's byte |
| CallbackSignature.AcceptsExactly | compile.c:741-746 | cutting the counts off at 31 and 3 lets no other signature through |
| CallbackSignature.SignatureComesBack | vm_engine.c:62-84 | for every accepted signature the engine finds the number of parameters and whether there is a result |
| CallbackSignature.CallbackRoundTrip | mcp_forth.c:333-360 | through a whole header, each callback comes back with its signature and the address of its word |
| StringLiterals.QuotedDecodes | compile.c:134-165 | decoding undoes quoting for every string and any surroundings |
| StringLiterals.PiecesDecode | compile.c:134-165 | a literal means what its pieces mean: `\n`, `\r`, `\t`, `\"` and `\\` one character each, a backslash at the end of a line nothing, and before any other character itself |
| StringLiterals.ReadExactly | compile.c:124-165 | every source is pieces up to a quote, the end, or a backslash at the end; a literal is read exactly when a quote comes first, and then it means its pieces |
| StringLiterals.LiteralsResolve | compile.c:584-601 | each pushed offset and length select in the dumped data that literal's characters and a zero, whatever literals come later |
| StringLiterals.SharedExactlyWhenEqual | compile.c:311-319 | two literals share storage if and only if their decoded contents are equal |
| LiteralPool.EscapedStringIterChar | compile.c:134-165 | the character loop, with joined lines, yields the specified next character |
| LiteralPool.EqualEscapedString | compile.c:176-192 | the parallel scan decides whether the decoded contents are equal |
| LiteralPool.Pool.Add | compile.c:584-601 | a literal is found or added, and its offset and length are those of its entry |
| LiteralPool.DumpData | compile.c:885-891 | the loop writes every decoded literal and its zero |
| NestedCalls.CallsFlagIsExact | compile.c:339-357 | whenever a word is left by `exit` or `;`, its CALLS flag is set if and only if a full scan of its body so far finds a use of the link register |
| NestedCalls.CallsFlagOnEsp32 | esp32s3_backend.c:1057-1069 | the same for the operations of the ESP32-S3 |
| LoopsFlag.LoopsFlagIsExact | compile.c:540-552 | for every accepted source, the LOOPS flag of a word is set if and only if some `exit` of its body stands under a do-loop |
| NestedCalls.NumberIsPlace | compile.c:519-531 | at a `:` as many fragments are placed as created, so the word's number is its place |
| Queue.BlockingQueue.Put | runtime_threadutil.c:46-76 | with the mutex held: wait when full, else append at the back; signals exactly when the queue was empty |
| Queue.BlockingQueue.Get | runtime_threadutil.c:78-106 | with the mutex held: wait when empty, else take from the front; signals exactly when the queue was full |
| Queue.BlockingQueue.TaskDone | runtime_threadutil.c:108-126 | one task fewer; signals exactly when none is left |
| Queue.PutAppends | runtime_threadutil.c:58-70 | the write at the wrapped index appends to the contents, wherever the ring starts |
| Queue.TakeRemoves | runtime_threadutil.c:90-103 | advancing the wrapped index removes the first item |
| QueueProtocol.EveryRunIsFifo | runtime_threadutil.c:46-106 | in every interleaving of any number of threads items come out in the order put, puts are gets plus len, and the ring stays in range |
| QueueProtocol.EveryThreadCanStep | runtime_threadutil.c:46-142 | in any state each thread has its next step, as the ring says |
| QueueProtocol.AnyWaiterMayWake | runtime_threadutil.c:65-97 | a signal may wake any of the threads that wait for it |
| QueueProtocol.JoinMeansAllDone | runtime_threadutil.c:108-142 | queue_join comes back only when everything put has been taken and marked done |
| QueueProtocol.WakeupsExact | runtime_threadutil.c:46-142 | from a state where every waiting thread has its reason, a step keeps it so if and only if it signals nothing or no two threads wait for what it signals |
| QueueProtocol.RunWakeupsExact | runtime_threadutil.c:46-142 | in any run with any number of threads no wake-up is lost up to a moment if and only if every signal before it finds at most one waiter |
| QueueProtocol.NoWakeupIsLost | runtime_threadutil.c:53-97 | in such a run a waiting getter means empty, a waiting putter full, a waiting joiner unfinished tasks, and getter and putter never wait together |
| QueueProtocol.OneWaiterIsEnough | runtime_threadutil.c:53-97 | never more than one waiter per condition is such a case |
| QueueProtocol.TwoGettersCanMissAWakeup | runtime_threadutil.c:65-68 | with two getters there is a run after which one waits although an item is there |

## Left out

- Scanning and lookup: words arrive already looked up; number parsing, comments, `\`, case folding of names and the errors of unknown words are not modelled. A `."` or `s"` is the two or three fragments it emits.
- Stack comments and `c'`: a comment is a list of words already cut apart, and the table of the words that need callbacks is an input of the header model.
- Builtin actions: every builtin that does not touch the return stack is an arbitrary function of data stack and world; equality of the byte code and x86 builtins is not claimed.
- Return cells of other words: a word that reads or pops return cells below its own is outside the meaning (`Lost`), as is `execute` of a number that is no execution token; the engine's behaviour there is described by the byte machine only.
- Raw addresses: pc is an address with no wrap-around, memory is a map, and a number that is cut off at the end of the image leaves the model (`Wild`), where the source reads on.
- VmEngine.Engine.RunInner: takes a bound on the number of instructions, because run_inner itself has none.
- VmEngine.Engine.CallbackHandle: requires room for the arguments and the sentinel, where the source asserts it.
- Assembler.CompileToByteCode: covers programs of up to 2^31 / 6 fragments, so that positions are 32-bit numbers.
- X86Assembler.LinkedIsSoundForX86: requires that bound in terms of the longest table entry and the number of fragments.
- X86Assembler.CompileToMachineCode: covers programs whose code is below 2^31 bytes even when every fragment takes the most that the tables allow.
- X86Backend.X86IsLawful: requires the code at its largest to be below 2^31 bytes.
- X86 builtins: the assembled code of the builtins is a parameter; what it does on the processor is not modelled, but for those flagged CLOB, which are assumed not to read the top.
- X86Machine: memory is one number per address, so accesses that overlap in part are not modelled; addresses do not wrap.
- X86Running.CodeSteps: speaks of bodies that the processor model knows and that do not jump into the chores behind them, which is every fragment but the builtins.
- X86Accepted.AcceptedMayElide: covers programs with fewer than 2^29 variables, constants and callbacks, so that table offsets are 32-bit numbers.
- QueueProtocol: mutual exclusion is taken from the mutex: a critical section is one step; `next_out + len` does not overflow 32 bits.
- HeaderCode.UnpackBinaryHeader: the string that names a missing runtime word is not returned.
- ESP32-S3 sizing and emission: sizes there depend on positions, so the relaxation theorem does not apply; only the CALLS flag is modelled.
- Runtime libraries, ELF writers, command lines, engine assembly and thread creation: plumbing, or outside what a model of this kind describes.
