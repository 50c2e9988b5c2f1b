/** Opcodes and fragments (mcp_forth.h), the flat code the compiler emits. */
module Fragments {

  datatype Opcode =
    | BuiltinWord
    | DefinedWord
    | RuntimeWord
    | PushLiteral
    | ExitWord
    | DefinedWordLocation
    | PushDataAddress
    | DeclareVariable
    | UseVariableOrConstant
    | Halt
    | BranchLocation
    | BranchIfZero
    | Branch
    | Do
    | Loop
    | PushOffsetAddress
    | PushCallback
    | DeclareConstant
    | Execute
    | ThreadCreate
    | ThreadJoin
    | Entry

  const OPCODE_LAST := 22

  /** The numbers that the enum gives its members. */
  function OpcodeNumber(op: Opcode): (n: nat)
    ensures n < OPCODE_LAST
  {
    match op
    case BuiltinWord => 0
    case DefinedWord => 1
    case RuntimeWord => 2
    case PushLiteral => 3
    case ExitWord => 4
    case DefinedWordLocation => 5
    case PushDataAddress => 6
    case DeclareVariable => 7
    case UseVariableOrConstant => 8
    case Halt => 9
    case BranchLocation => 10
    case BranchIfZero => 11
    case Branch => 12
    case Do => 13
    case Loop => 14
    case PushOffsetAddress => 15
    case PushCallback => 16
    case DeclareConstant => 17
    case Execute => 18
    case ThreadCreate => 19
    case ThreadJoin => 20
    case Entry => 21
  }

  const LOOPS := 1
  const CALLS := 2

  /** The part of m4_fragment_t that the token loop fills; the position and relaxation
      columns belong to the layout and are kept apart.  The word-location parameter is the
      pair of flags loops and calls, `param` is 0 there. */
  datatype Fragment = Fragment(op: Opcode, param: int, isWord: bool, loops: bool, calls: bool)

  /** Builtin indices with a special role (compile.c:58-122). */
  const I_WORD := 14
  const J_WORD := 15
  const TO_R := 44
  const R_FROM := 45
  const TWO_TO_R := 46
  const TWO_R_FROM := 47
  const R_FETCH := 60
  const BUILTIN_COUNT := 63

  /** A sequence of fragments in which none stands twice. */
  ghost predicate NoRepeats(s: seq<nat>) {
    forall i, j :: 0 <= i < j < |s| ==> s[i] != s[j]
  }
}
