/** The builtin table generator (backend_generator.py): it derives the flags of a builtin from
    its first and last lines, deletes those lines, and lays the assembled rest end to end. */
module Generator {
  import opened NumCodec
  import opened Chores

  /** What a line matches; the four patterns exclude one another. */
  datatype Line = ChoreA | ChoreB | ChoreY | ChoreZ | Other(text: string)

  datatype Builtin = Builtin(clobber: bool, source: seq<Line>)

  datatype Entry = Entry(pos: nat, len: nat, flags: Flags)

  function Prefix(f: Flags): seq<Line> {
    (if f.a then [ChoreA] else []) + (if f.b then [ChoreB] else [])
  }

  function Suffix(f: Flags): seq<Line> {
    (if f.y then [ChoreY] else []) + (if f.z then [ChoreZ] else [])
  }

  ghost predicate FrontFlags(b: Builtin, f: Flags) {
    && (f.a <==> b.source != [] && b.source[0] == ChoreA)
    && (f.b <==> f.a && |b.source| > 1 && b.source[1] == ChoreB)
    && (f.clob <==> f.b && b.clobber)
  }

  ghost predicate BackFlags(b: Builtin, f: Flags) {
    var n := |b.source|;
    && (f.z <==> n > 0 && b.source[n - 1] == ChoreZ)
    && (f.y <==> f.z && n > 1 && b.source[n - 2] == ChoreY)
  }

  /** The flags and the lines that are left account for the source exactly, and no more chores
      could have been taken from its ends. */
  ghost predicate Derived(b: Builtin, f: Flags, rest: seq<Line>) {
    Ordered(f) && FrontFlags(b, f) && BackFlags(b, f) && b.source == Prefix(f) + rest + Suffix(f)
  }

  /** All four chores around other lines are found and taken off, and CLOB is kept. */
  lemma {:induction false} FindsAll(b: Builtin, mid: seq<Line>, f: Flags, rest: seq<Line>)
    requires b.source == [ChoreA, ChoreB] + mid + [ChoreY, ChoreZ] && Derived(b, f, rest)
    ensures f == Flags(true, true, b.clobber, true, true) && rest == mid
  {
    var n := |b.source|;
    assert b.source[0] == ChoreA && b.source[1] == ChoreB && b.source[n - 1] == ChoreZ && b.source[n - 2] == ChoreY;
    assert b.source == [ChoreA, ChoreB] + rest + [ChoreY, ChoreZ];
    assert b.source[2..n - 2] == mid && b.source[2..n - 2] == rest;
  }

  /** Nothing is taken off where the first line makes no room and the last gives none back. */
  lemma {:induction false} FindsNone(b: Builtin, f: Flags, rest: seq<Line>)
    requires Derived(b, f, rest)
    requires b.source == [] || (b.source[0] != ChoreA && b.source[|b.source| - 1] != ChoreZ)
    ensures f == Flags(false, false, false, false, false) && rest == b.source
  {
    assert [] + rest + [] == rest;
  }

  /** Room only, without the store or the load: those lines are not taken for chores. */
  lemma {:induction false} FindsRoomOnly(b: Builtin, mid: seq<Line>, f: Flags, rest: seq<Line>)
    requires mid != [] && mid[0] != ChoreB && mid[|mid| - 1] != ChoreY
    requires b.source == [ChoreA] + mid + [ChoreZ] && Derived(b, f, rest)
    ensures f == Flags(true, false, false, false, true) && rest == mid
  {
    var n := |b.source|;
    assert b.source[0] == ChoreA && b.source[1] == mid[0] && b.source[n - 1] == ChoreZ
        && b.source[n - 2] == mid[|mid| - 1];
    assert b.source == [ChoreA] + rest + [ChoreZ];
    assert b.source[1..n - 1] == mid && b.source[1..n - 1] == rest;
  }

  method DeleteFront(lines: seq<Line>, f: Flags) returns (rest: seq<Line>)
    requires (f.a ==> lines != [] && lines[0] == ChoreA) && (f.b ==> f.a && |lines| > 1 && lines[1] == ChoreB)
    ensures lines == Prefix(f) + rest
  {
    rest := lines;
    if f.a { rest := rest[1..]; }
    if f.b { rest := rest[1..]; }
  }

  method DeleteBack(lines: seq<Line>, f: Flags) returns (rest: seq<Line>)
    requires f.z ==> |lines| > 0 && lines[|lines| - 1] == ChoreZ
    requires f.y ==> f.z && |lines| > 1 && lines[|lines| - 2] == ChoreY
    ensures lines == rest + Suffix(f)
  {
    rest := lines;
    if f.z { rest := rest[..|rest| - 1]; }
    if f.y { rest := rest[..|rest| - 1]; }
  }

  /** The chores at the end are still there when those in front have been deleted. */
  lemma {:induction false} EndsApart(b: Builtin, f: Flags, mid: seq<Line>)
    requires FrontFlags(b, f) && BackFlags(b, f) && b.source == Prefix(f) + mid
    ensures var n := |mid|; (f.z ==> n > 0 && mid[n - 1] == ChoreZ) && (f.y ==> f.z && n > 1 && mid[n - 2] == ChoreY)
  {
    var n := |b.source|;
    assert f.z ==> b.source[n - 1] == ChoreZ;
    assert f.y ==> b.source[n - 2] == ChoreY;
  }

  method Strip(b: Builtin) returns (flags: Flags, rest: seq<Line>)
    ensures Derived(b, flags, rest)
  {
    hide Suffix, Prefix;
    var lines := b.source;
    var n := |lines|;
    var a := n > 0 && lines[0] == ChoreA;
    var bb := a && n > 1 && lines[1] == ChoreB;
    var clob := bb && b.clobber;
    var z := n > 0 && lines[n - 1] == ChoreZ;
    var y := z && n > 1 && lines[n - 2] == ChoreY;
    flags := Flags(a, bb, clob, y, z);
    var mid := DeleteFront(lines, flags);
    EndsApart(b, flags, mid);
    rest := DeleteBack(mid, flags);
    assert Prefix(flags) + (rest + Suffix(flags)) == Prefix(flags) + rest + Suffix(flags);
  }

  /** An entry selects, in the code array, the assembled lines that are left of its builtin. */
  ghost predicate Selects(code: seq<byte>, assemble: seq<Line> -> seq<byte>, b: Builtin, e: Entry) {
    && e.pos + e.len <= |code|
    && exists rest :: Derived(b, e.flags, rest) && code[e.pos..e.pos + e.len] == assemble(rest)
  }

  lemma {:induction false} StillSelects(code: seq<byte>, more: seq<byte>, assemble: seq<Line> -> seq<byte>,
      b: Builtin, e: Entry)
    requires Selects(code, assemble, b, e)
    ensures Selects(code + more, assemble, b, e)
  {
    assert (code + more)[e.pos..e.pos + e.len] == code[e.pos..e.pos + e.len];
  }

  method GenerateBuiltins(builtins: seq<Builtin>, assemble: seq<Line> -> seq<byte>)
      returns (code: seq<byte>, table: seq<Entry>)
    ensures |table| == |builtins|
    ensures forall i :: 0 <= i < |table| ==> Ordered(table[i].flags) && Selects(code, assemble, builtins[i], table[i])
  {
    hide Derived;
    code, table := [], [];
    var cumulativeLen := 0;
    for i := 0 to |builtins|
      invariant |table| == i && cumulativeLen == |code|
      invariant forall j :: 0 <= j < i ==> Ordered(table[j].flags) && Selects(code, assemble, builtins[j], table[j])
    {
      var flags, rest := Strip(builtins[i]);
      var bytes := assemble(rest);
      forall j | 0 <= j < i ensures Selects(code + bytes, assemble, builtins[j], table[j]) {
        StillSelects(code, bytes, assemble, builtins[j], table[j]);
      }
      DerivedOrdered(builtins[i], flags, rest);
      assert (code + bytes)[|code|..|code| + |bytes|] == bytes;
      table := table + [Entry(cumulativeLen, |bytes|, flags)];
      code := code + bytes;
      cumulativeLen := cumulativeLen + |bytes|;
    }
  }

  lemma {:induction false} DerivedOrdered(b: Builtin, f: Flags, rest: seq<Line>)
    requires Derived(b, f, rest)
    ensures Ordered(f)
  {
  }
}
