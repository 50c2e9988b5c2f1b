/** Chore elision (mcp_forth.c:372-398): the stack upkeep that neighbouring fragments would undo
    is left out.  Each fragment decides from its own neighbours' flags; run after run, the code
    with the chores left out ends in the same machine state as the code with every chore. */
module Chores {

  /** A: make room below the top.  B: store the top there.  CLOB: the body overwrites the top
      without reading it.  Y: reload the top.  Z: give the room back. */
  datatype Flags = Flags(a: bool, b: bool, clob: bool, y: bool, z: bool)

  /** What the table generator guarantees of every entry. */
  predicate Ordered(f: Flags) {
    (f.b ==> f.a) && (f.clob ==> f.b) && (f.y ==> f.z)
  }

  function NeededChores(flags: seq<Flags>, i: nat): Flags
    requires i < |flags|
  {
    var f := flags[i];
    var above :=
      if i > 0 && flags[i - 1].z then f.(a := false, b := f.b && !flags[i - 1].y) else f;
    if i + 1 < |flags| && flags[i + 1].a
    then above.(z := false, y := f.y && !(flags[i + 1].b && flags[i + 1].clob))
    else above
  }

  // ----- the machine -----

  /** Top of stack in a register, the stack pointer, memory, and everything else. */
  datatype Cpu<M, S> = Cpu(top: int, sp: int, mem: M, rest: S)

  datatype Next = Fall | Jump(place: nat) | Stop

  /** Memory and the bodies of the fragments, which may be anything. */
  datatype Program<!M, !S> = Program(
    flags: seq<Flags>,
    read: (M, int) -> int,
    write: (M, int, int) -> M,
    body: (nat, Cpu<M, S>) -> (Cpu<M, S>, Next))

  datatype Config<M, S> = At(place: nat, cpu: Cpu<M, S>) | Stopped(cpu: Cpu<M, S>)

  const CELL := 4

  function Before<M, S>(p: Program<M, S>, f: Flags, c: Cpu<M, S>): Cpu<M, S> {
    var c1 := if f.a then c.(sp := c.sp + CELL) else c;
    if f.b then c1.(mem := p.write(c1.mem, c1.sp, c1.top)) else c1
  }

  function After<M, S>(p: Program<M, S>, f: Flags, c: Cpu<M, S>): Cpu<M, S> {
    var c1 := if f.y then c.(top := p.read(c.mem, c.sp)) else c;
    if f.z then c1.(sp := c1.sp - CELL) else c1
  }

  /** One fragment with these chores around its body; a body that jumps skips the ones after it. */
  function StepWith<M, S>(p: Program<M, S>, f: Flags, place: nat, c: Cpu<M, S>): Config<M, S> {
    var (c1, next) := p.body(place, Before(p, f, c));
    match next
    case Fall => At(place + 1, After(p, f, c1))
    case Jump(j) => At(j, c1)
    case Stop => Stopped(c1)
  }

  /** Running off the end stops as well. */
  function Step<M, S>(p: Program<M, S>, elide: bool, c: Config<M, S>): Config<M, S> {
    match c
    case Stopped(_) => c
    case At(k, cpu) =>
      if k >= |p.flags| then Stopped(cpu)
      else StepWith(p, if elide then NeededChores(p.flags, k) else p.flags[k], k, cpu)
  }

  function Run<M, S>(p: Program<M, S>, elide: bool, n: nat, c: Config<M, S>): Config<M, S> {
    if n == 0 then c else Step(p, elide, Run(p, elide, n - 1, c))
  }

  // ----- what the elision relies on -----

  /** Something is left out between place j - 1 and place j. */
  predicate Cut(flags: seq<Flags>, j: nat) {
    0 < j < |flags| && flags[j - 1].z && flags[j].a
  }

  ghost predicate MemoryLaw<M(!new), S>(p: Program<M, S>) {
    forall m, a :: p.write(m, a, p.read(m, a)) == m
  }

  /** A body flagged CLOB does the same whatever the top register holds. */
  ghost predicate Clobbers<M(!new), S(!new)>(p: Program<M, S>, k: nat) {
    forall c: Cpu<M, S>, t: int {:trigger p.body(k, c.(top := t))} :: p.body(k, c.(top := t)) == p.body(k, c)
  }

  /** Control comes to a place where something is left out only from the place above it. */
  ghost predicate JumpsClear<M(!new), S(!new)>(p: Program<M, S>, k: nat) {
    forall c: Cpu<M, S> :: p.body(k, c).1.Jump? ==> !Cut(p.flags, p.body(k, c).1.place)
  }

  ghost predicate Elidable<M(!new), S(!new)>(p: Program<M, S>) {
    && MemoryLaw(p)
    && (forall k :: 0 <= k < |p.flags| ==> Ordered(p.flags[k]))
    && (forall k :: 0 <= k < |p.flags| ==> JumpsClear(p, k))
    && (forall k :: 0 <= k < |p.flags| && p.flags[k].clob ==> Clobbers(p, k))
  }

  // ----- the proof -----

  /** The full machine f and the eliding machine e, both about to enter place j. */
  ghost predicate Related<M, S>(p: Program<M, S>, j: nat, f: Cpu<M, S>, e: Cpu<M, S>) {
    if !Cut(p.flags, j) then f == e
    else
      var up, down := p.flags[j - 1], p.flags[j];
      && f.sp == e.sp - CELL && f.mem == e.mem && f.rest == e.rest
      && (up.y ==> f.top == p.read(e.mem, e.sp))
      && (!(up.y && down.b && down.clob) ==> f.top == e.top)
  }

  ghost predicate Agree<M, S>(p: Program<M, S>, f: Config<M, S>, e: Config<M, S>) {
    match f
    case Stopped(c) => e == Stopped(c)
    case At(k, c) => e.At? && e.place == k && Related(p, k, c, e.cpu)
  }

  /** Before the body the two machines differ at most in a top register that the body ignores. */
  lemma {:induction false} BeforeAgrees<M(!new), S(!new)>(p: Program<M, S>, k: nat, f: Cpu<M, S>, e: Cpu<M, S>)
    requires Elidable(p) && k < |p.flags| && Related(p, k, f, e)
    ensures var f1, e1 := Before(p, p.flags[k], f), Before(p, NeededChores(p.flags, k), e);
      f1 == e1.(top := f1.top) && (!p.flags[k].clob ==> f1 == e1)
  {
    assert Ordered(p.flags[k]);
    if Cut(p.flags, k) {
      assert Ordered(p.flags[k - 1]);
      assert p.flags[k - 1].y ==> p.write(e.mem, e.sp, p.read(e.mem, e.sp)) == e.mem;
    }
  }

  lemma {:induction false} BodiesAgree<M(!new), S(!new)>(p: Program<M, S>, k: nat, f: Cpu<M, S>, e: Cpu<M, S>)
    requires Elidable(p) && k < |p.flags| && Related(p, k, f, e)
    ensures p.body(k, Before(p, p.flags[k], f)) == p.body(k, Before(p, NeededChores(p.flags, k), e))
  {
    hide Related, Before, NeededChores, MemoryLaw, Cut, Ordered, JumpsClear;
    BeforeAgrees(p, k, f, e);
    var f1, e1 := Before(p, p.flags[k], f), Before(p, NeededChores(p.flags, k), e);
    if p.flags[k].clob {
      assert Clobbers(p, k);
      assert p.body(k, e1.(top := f1.top)) == p.body(k, e1);
    }
  }

  /** After the body, falling through brings the two machines to the next place as required. */
  lemma {:induction false} AfterRelated<M(!new), S(!new)>(p: Program<M, S>, k: nat, c: Cpu<M, S>)
    requires Elidable(p) && k < |p.flags|
    ensures Related(p, k + 1, After(p, p.flags[k], c), After(p, NeededChores(p.flags, k), c))
  {
    hide MemoryLaw, Clobbers, JumpsClear;
    assert Ordered(p.flags[k]);
    if k + 1 < |p.flags| { assert Ordered(p.flags[k + 1]); }
  }

  lemma {:induction false} StepAgrees<M(!new), S(!new)>(p: Program<M, S>, f: Config<M, S>, e: Config<M, S>)
    requires Elidable(p) && Agree(p, f, e)
    ensures Agree(p, Step(p, false, f), Step(p, true, e))
  {
    hide Before, After, NeededChores, MemoryLaw, Clobbers;
    if f.At? && f.place < |p.flags| {
      var k := f.place;
      BodiesAgree(p, k, f.cpu, e.cpu);
      var (c, next) := p.body(k, Before(p, p.flags[k], f.cpu));
      AfterRelated(p, k, c);
      assert JumpsClear(p, k);
    } else if f.At? {
      NotCut(p.flags, f.place);
    }
  }

  lemma {:induction false} NotCut(flags: seq<Flags>, j: nat)
    requires j >= |flags|
    ensures !Cut(flags, j)
  {
  }

  /** Elision preserves meaning.  From the same state at a place where nothing is left out above,
      after any number of fragments the two codes are at the same place; they stop together, in
      the same state; and wherever nothing is left out, their states are the same. */
  lemma {:induction false} ElisionPreservesMeaning<M(!new), S(!new)>(p: Program<M, S>, n: nat, start: nat, c: Cpu<M, S>)
    requires Elidable(p) && !Cut(p.flags, start)
    ensures var f, e := Run(p, false, n, At(start, c)), Run(p, true, n, At(start, c));
      Agree(p, f, e) && (f.Stopped? <==> e.Stopped?) && (f.Stopped? ==> f == e)
      && (f.At? && !Cut(p.flags, f.place) ==> f == e)
  {
    hide Elidable, Step, Cut;
    if n > 0 {
      ElisionPreservesMeaning(p, n - 1, start, c);
      StepAgrees(p, Run(p, false, n - 1, At(start, c)), Run(p, true, n - 1, At(start, c)));
    }
  }

  /** The two sides of a boundary leave out the same chores, and no others: giving room back above and
      making it below go together; the store goes exactly where the register was just loaded from
      that cell, and the load exactly where the body below overwrites the register unread. */
  lemma {:induction false} NeighboursDecideAlike(flags: seq<Flags>, j: nat)
    requires 0 < j < |flags| && Ordered(flags[j - 1]) && Ordered(flags[j])
    ensures var up, down := NeededChores(flags, j - 1), NeededChores(flags, j);
      && (up.z <==> flags[j - 1].z && !flags[j].a) && (down.a <==> flags[j].a && !flags[j - 1].z)
      && (down.b <==> flags[j].b && !flags[j - 1].y)
      && (up.y <==> flags[j - 1].y && !(flags[j].b && flags[j].clob))
  {
  }

  /** At the two ends nothing is left out. */
  lemma {:induction false} EndsKeepTheirs(flags: seq<Flags>)
    requires flags != []
    ensures NeededChores(flags, 0).a == flags[0].a && NeededChores(flags, 0).b == flags[0].b
    ensures var n := |flags| - 1;
      NeededChores(flags, n).y == flags[n].y && NeededChores(flags, n).z == flags[n].z
  {
  }
}
