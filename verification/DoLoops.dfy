/** How often a do-loop goes round, and what `i` is in each round (vm_engine.c:681-701). */
module DoLoops {
  import opened Fragments
  import opened NumCodec
  import opened Grammar
  import opened Semantics

  function Max(a: int, b: int): int {
    if a > b then a else b
  }

  /** The rounds of a loop as LOOP decides them: increment with 32-bit wrap-around, and on while
      below the limit. */
  function Rounds(limit: int, index: int): nat
    requires IsInt32(limit) && IsInt32(index)
    decreases if index == INT_MAX then TWO_32 else INT_MAX - index
  {
    if Wrap(index + 1) < limit then 1 + Rounds(limit, Wrap(index + 1)) else 1
  }

  lemma {:induction false} NextIndex(index: int)
    requires IsInt32(index)
    ensures Wrap(index + 1) == if index == INT_MAX then INT_MIN else index + 1
  {
  }

  lemma {:induction false} RoundsBelow(limit: int, index: int)
    requires IsInt32(limit) && IsInt32(index) && index < INT_MAX
    ensures Rounds(limit, index) == Max(1, limit - index)
    decreases INT_MAX - index
  {
    hide Wrap;
    NextIndex(index);
    if index + 1 < limit { RoundsBelow(limit, index + 1); }
  }

  /** max(1, limit - start) rounds are right exactly when the start is not the largest number, or
      the limit is the smallest. */
  lemma {:induction false} RoundsExact(limit: int, start: int)
    requires IsInt32(limit) && IsInt32(start)
    ensures Rounds(limit, start) == Max(1, limit - start) <==> start != INT_MAX || limit == INT_MIN
  {
    hide Wrap;
    NextIndex(start);
    RoundsBelow(limit, if start == INT_MAX then INT_MIN else start);
  }

  // ----- the rounds of a loop in the meaning of programs -----

  /** The body ends, from this state, and leaves the return cells as it found them. */
  ghost predicate BalancedAt(d: Dictionary, cur: int, b: Stmt, fuel: nat, depth: nat, l: Local) {
    var o := Eval(d, cur, b, fuel, depth, l);
    o.Ended? && o.l.cells == l.cells
  }

  /** The state at the start of the round after `l`. */
  ghost function NextRound(d: Dictionary, cur: int, b: Stmt, fuel: nat, depth: nat, l: Local, cells: seq<int>,
      limit: int, index: int): Local
    requires BalancedAt(d, cur, b, fuel, depth, l)
  {
    Eval(d, cur, b, fuel, depth, l).l.(cells := cells + [limit, index])
  }

  /** The index in round k. */
  function IndexIn(start: int, k: nat): int {
    Wrap(start + k)
  }

  /** One state for each round that is begun.  Nothing is asked of the body but what it does in
      these states: in every round except the last it ends and leaves the cells alone. */
  ghost predicate AreRounds(d: Dictionary, cur: int, b: Stmt, fuel: nat, depth: nat, cells: seq<int>, limit: int,
      start: int, rounds: seq<Local>) {
    && 1 <= |rounds| <= fuel + 1
    && (forall k :: 0 <= k < |rounds| ==> rounds[k].cells == cells + [limit, IndexIn(start, k)])
    && (forall k :: 0 <= k < |rounds| - 1 ==> BalancedAt(d, cur, b, fuel - k, depth, rounds[k]))
    && (forall k :: 0 <= k < |rounds| - 1 ==>
         rounds[k + 1] == NextRound(d, cur, b, fuel - k, depth, rounds[k], cells, limit, IndexIn(start, k + 1)))
  }

  /** How the loop ends.  When the last round begun is balanced too, all the rounds have been made
      and the cells of the loop are gone; when its body does not end, neither does the loop. */
  ghost predicate LoopEnds(d: Dictionary, cur: int, b: Stmt, fuel: nat, depth: nat, cells: seq<int>, limit: int,
      start: int, rounds: seq<Local>)
    requires IsInt32(limit) && IsInt32(start) && 1 <= |rounds| <= fuel + 1
  {
    var last := |rounds| - 1;
    var o := Eval(d, cur, b, fuel - last, depth, rounds[last]);
    var outcome := EvalRounds(d, cur, b, fuel, depth, rounds[0]);
    && |rounds| <= Rounds(limit, start)
    && (|rounds| < Rounds(limit, start) ==> !BalancedAt(d, cur, b, fuel - last, depth, rounds[last]))
    && (BalancedAt(d, cur, b, fuel - last, depth, rounds[last]) ==> outcome == Ended(o.l.(cells := cells)))
    && (!o.Ended? ==> outcome == o)
  }

  /** One test at the end of a round. */
  lemma {:induction false} TestIs(depth: nat, l: Local, cells: seq<int>, limit: int, index: int)
    requires l.cells == cells + [limit, index]
    ensures TestLoop(depth, l) ==
      if Wrap(index + 1) < limit then (Fine(l.(cells := cells + [limit, Wrap(index + 1)])), true)
      else (Fine(l.(cells := cells)), false)
  {
    hide Wrap;
    var low := cells + [limit];
    assert l.cells == low + [index] && l.cells[..|l.cells| - 1] == low && low[..|low| - 1] == cells;
  }

  lemma {:induction false} IndexShifts(start: int, k: nat)
    requires IsInt32(start)
    ensures IndexIn(start, 0) == start && IndexIn(Wrap(start + 1), k) == IndexIn(start, k + 1)
  {
    if start == INT_MAX {
      assert (start + (k + 1)) % TWO_32 == (INT_MIN + k) % TWO_32;
    }
  }

  lemma {:induction false} RoundsShift(d: Dictionary, cur: int, b: Stmt, fuel: nat, depth: nat, cells: seq<int>,
      limit: int, start: int, l: Local, rest: seq<Local>)
    requires fuel > 0 && IsInt32(start) && l.cells == cells + [limit, start]
    requires AreRounds(d, cur, b, fuel - 1, depth, cells, limit, Wrap(start + 1), rest)
    requires BalancedAt(d, cur, b, fuel, depth, l)
        && rest[0] == NextRound(d, cur, b, fuel, depth, l, cells, limit, Wrap(start + 1))
    ensures AreRounds(d, cur, b, fuel, depth, cells, limit, start, [l] + rest)
  {
    hide BalancedAt, NextRound, IndexIn, Wrap;
    var rounds := [l] + rest;
    forall k | 0 <= k < |rounds| ensures rounds[k].cells == cells + [limit, IndexIn(start, k)] {
      IndexShifts(start, if k > 0 then k - 1 else 0);
      if k > 0 { assert rest[k - 1].cells == cells + [limit, IndexIn(Wrap(start + 1), k - 1)]; }
    }
    forall k | 0 <= k < |rounds| - 1
      ensures BalancedAt(d, cur, b, fuel - k, depth, rounds[k])
      ensures rounds[k + 1] == NextRound(d, cur, b, fuel - k, depth, rounds[k], cells, limit, IndexIn(start, k + 1))
    {
      IndexShifts(start, k);
      if k > 0 {
        assert BalancedAt(d, cur, b, fuel - 1 - (k - 1), depth, rest[k - 1]);
        assert rest[k - 1 + 1] == NextRound(d, cur, b, fuel - 1 - (k - 1), depth, rest[k - 1], cells, limit,
            IndexIn(Wrap(start + 1), k - 1 + 1));
      } else {
        FirstIndex(start);
      }
    }
  }

  lemma {:induction false} FirstIndex(start: int)
    requires IsInt32(start)
    ensures IndexIn(start, 0) == start && IndexIn(start, 1) == Wrap(start + 1)
  {
  }

  /** One round of EvalRounds. */
  lemma {:induction false} OneRound(d: Dictionary, cur: int, b: Stmt, fuel: nat, depth: nat, l: Local,
      cells: seq<int>, limit: int, index: int)
    requires l.cells == cells + [limit, index]
    ensures var o := Eval(d, cur, b, fuel, depth, l);
      && (!o.Ended? ==> EvalRounds(d, cur, b, fuel, depth, l) == o)
      && (BalancedAt(d, cur, b, fuel, depth, l) ==>
           EvalRounds(d, cur, b, fuel, depth, l) ==
             if Wrap(index + 1) >= limit then Ended(o.l.(cells := cells))
             else if fuel == 0 then Endless
             else EvalRounds(d, cur, b, fuel - 1, depth,
                 NextRound(d, cur, b, fuel, depth, l, cells, limit, Wrap(index + 1))))
  {
    hide Eval, TestLoop, Wrap;
    if BalancedAt(d, cur, b, fuel, depth, l) {
      TestIs(depth, Eval(d, cur, b, fuel, depth, l).l, cells, limit, index);
    }
  }

  lemma {:induction false} EndsNow(d: Dictionary, cur: int, b: Stmt, fuel: nat, depth: nat, l: Local,
      cells: seq<int>, limit: int, start: int)
    requires IsInt32(limit) && IsInt32(start) && l.cells == cells + [limit, start]
    requires Wrap(start + 1) >= limit || !BalancedAt(d, cur, b, fuel, depth, l)
    ensures AreRounds(d, cur, b, fuel, depth, cells, limit, start, [l])
    ensures LoopEnds(d, cur, b, fuel, depth, cells, limit, start, [l])
  {
    hide Eval, EvalRounds, BalancedAt, Wrap, IndexIn;
    FirstIndex(start);
    OneRound(d, cur, b, fuel, depth, l, cells, limit, start);
  }

  lemma {:induction false} EndsLater(d: Dictionary, cur: int, b: Stmt, fuel: nat, depth: nat, l: Local,
      cells: seq<int>, limit: int, start: int, rest: seq<Local>)
    requires IsInt32(limit) && IsInt32(start) && l.cells == cells + [limit, start] && fuel > 0
    requires Wrap(start + 1) < limit && BalancedAt(d, cur, b, fuel, depth, l) && 1 <= |rest| <= fuel
    requires rest[0] == NextRound(d, cur, b, fuel, depth, l, cells, limit, Wrap(start + 1))
    requires LoopEnds(d, cur, b, fuel - 1, depth, cells, limit, Wrap(start + 1), rest)
    ensures LoopEnds(d, cur, b, fuel, depth, cells, limit, start, [l] + rest)
  {
    hide Eval, EvalRounds, BalancedAt, Wrap, NextRound;
    OneRound(d, cur, b, fuel, depth, l, cells, limit, start);
    var rounds := [l] + rest;
    assert rounds[|rounds| - 1] == rest[|rest| - 1] && fuel - (|rounds| - 1) == fuel - 1 - (|rest| - 1);
  }

  /** Every do-loop, whatever its body, its limit and its start.  The rounds that are begun have
      start + k, wrapped, as their index; as long as the body leaves the cells alone there are
      exactly Rounds(limit, start) of them, and then the loop is over and its cells are gone; a
      body that fails, exits its word or does not end is the outcome of the loop. */
  lemma {:induction false} LoopGoesRound(d: Dictionary, cur: int, b: Stmt, fuel: nat, depth: nat, l: Local,
      cells: seq<int>, limit: int, start: int)
    returns (rounds: seq<Local>)
    requires IsInt32(limit) && IsInt32(start) && l.cells == cells + [limit, start] && fuel + 1 >= Rounds(limit, start)
    ensures rounds != [] && rounds[0] == l
    ensures AreRounds(d, cur, b, fuel, depth, cells, limit, start, rounds)
    ensures LoopEnds(d, cur, b, fuel, depth, cells, limit, start, rounds)
    decreases Rounds(limit, start)
  {
    hide Eval, EvalRounds, BalancedAt, Wrap, AreRounds, LoopEnds;
    WrapIsInt32(start + 1);
    if Wrap(start + 1) < limit && BalancedAt(d, cur, b, fuel, depth, l) {
      var next := NextRound(d, cur, b, fuel, depth, l, cells, limit, Wrap(start + 1));
      var rest := LoopGoesRound(d, cur, b, fuel - 1, depth, next, cells, limit, Wrap(start + 1));
      RoundsShift(d, cur, b, fuel, depth, cells, limit, start, l, rest);
      Bounded(d, cur, b, fuel - 1, depth, cells, limit, Wrap(start + 1), rest);
      EndsLater(d, cur, b, fuel, depth, l, cells, limit, start, rest);
      rounds := [l] + rest;
    } else {
      rounds := [l];
      EndsNow(d, cur, b, fuel, depth, l, cells, limit, start);
    }
  }

  lemma {:induction false} WrapIsInt32(n: int)
    ensures IsInt32(Wrap(n))
  {
  }

  lemma {:induction false} Bounded(d: Dictionary, cur: int, b: Stmt, fuel: nat, depth: nat, cells: seq<int>,
      limit: int, start: int, rounds: seq<Local>)
    requires AreRounds(d, cur, b, fuel, depth, cells, limit, start, rounds)
    ensures 1 <= |rounds| <= fuel + 1
  {
    hide BalancedAt, NextRound, IndexIn;
  }

  /** A loop whose rounds are all balanced makes max(1, limit - start) of them if and only if the
      start is not the largest number, or the limit is the smallest. */
  lemma {:induction false} LoopRoundsExact(d: Dictionary, cur: int, b: Stmt, fuel: nat, depth: nat, l: Local,
      cells: seq<int>, limit: int, start: int)
    returns (rounds: seq<Local>)
    requires IsInt32(limit) && IsInt32(start) && l.cells == cells + [limit, start] && fuel + 1 >= Rounds(limit, start)
    ensures rounds != [] && rounds[0] == l && |rounds| <= fuel + 1
    ensures AreRounds(d, cur, b, fuel, depth, cells, limit, start, rounds)
    ensures BalancedAt(d, cur, b, fuel - (|rounds| - 1), depth, rounds[|rounds| - 1]) ==>
      && (|rounds| == Max(1, limit - start) <==> start != INT_MAX || limit == INT_MIN)
      && EvalRounds(d, cur, b, fuel, depth, l)
         == Ended(Eval(d, cur, b, fuel - (|rounds| - 1), depth, rounds[|rounds| - 1]).l.(cells := cells))
  {
    hide Eval, EvalRounds, BalancedAt, AreRounds, Rounds;
    rounds := LoopGoesRound(d, cur, b, fuel, depth, l, cells, limit, start);
    RoundsExact(limit, start);
  }

  /** Below the largest number the index of round k is start + k. */
  lemma {:induction false} IndexDoesNotWrap(limit: int, start: int, k: nat)
    requires IsInt32(limit) && IsInt32(start) && start < INT_MAX && k < Rounds(limit, start)
    ensures IndexIn(start, k) == start + k
  {
    hide Rounds;
    RoundsBelow(limit, start);
  }

  /** In round k, `i` pushes the index of the round wherever the body has no cells of its own on
      top, and `j` does in a loop inside the body. */
  lemma {:induction false} IndexInRound(d: Dictionary, cur: int, b: Stmt, fuel: nat, depth: nat, cells: seq<int>,
      limit: int, start: int, rounds: seq<Local>, k: nat, m: Local, inner: seq<int>, spare: nat)
    requires AreRounds(d, cur, b, fuel, depth, cells, limit, start, rounds) && k < |rounds|
    requires m.cells == rounds[k].cells + inner
    ensures inner == [] ==>
      Eval(d, cur, Prim(BuiltinWord, I_WORD), spare, depth, m) == FromRes(Push(m, IndexIn(start, k)))
    ensures |inner| == 2 ==>
      Eval(d, cur, Prim(BuiltinWord, J_WORD), spare, depth, m) == FromRes(Push(m, IndexIn(start, k)))
  {
    hide IndexIn, BalancedAt, NextRound, Push;
    assert rounds[k].cells == cells + [limit, IndexIn(start, k)];
    assert m.cells == cells + [limit, IndexIn(start, k)] + inner;
  }

  /** DO puts the limit and the start where the rounds expect them. */
  lemma {:induction false} DoStartsLoop(d: Dictionary, cur: int, b: Stmt, fuel: nat, depth: nat, l: Local,
      ds: seq<int>, limit: int, start: int)
    requires l.ds == ds + [limit, start] && depth + |l.cells| + 2 <= RETURN_CELLS
    ensures Eval(d, cur, DoLoop(b), fuel, depth, l)
        == EvalRounds(d, cur, b, fuel, depth, Local(ds, l.cells + [limit, start], l.w))
  {
    hide EvalRounds;
    var low := ds + [limit];
    assert l.ds == low + [start] && l.ds[..|l.ds| - 1] == low && low[..|low| - 1] == ds;
    assert l.cells + [limit] + [start] == l.cells + [limit, start];
  }

  /** From the largest number the loop does not stop after the one round that max(1, limit - start)
      calls for: `0 2147483647 do loop` wraps to the smallest number and goes on. */
  lemma {:induction false} LargestStartGoesOn(d: Dictionary, cur: int, depth: nat, ds: seq<int>, w: World)
    ensures Max(1, 0 - INT_MAX) == 1 && Rounds(0, INT_MAX) == 1 + 0x8000_0000
    ensures var l := Local(ds, [0, INT_MAX], w);
      EvalRounds(d, cur, Empty, 0, depth, l) == Endless
      && EvalRounds(d, cur, Empty, 0x8000_0000, depth, l) == Ended(Local(ds, [], w))
  {
    hide EvalRounds, Rounds;
    var l := Local(ds, [0, INT_MAX], w);
    EmptyIsBalanced(d, cur, 0, depth, l);
    assert [] + [0, INT_MAX] == [0, INT_MAX];
    OneRound(d, cur, Empty, 0, depth, l, [], 0, INT_MAX);
    FromLargest();
    var fuel := 0x8000_0000;
    var rounds := LoopGoesRound(d, cur, Empty, fuel, depth, l, [], 0, INT_MAX);
    EmptyRounds(d, cur, fuel, depth, 0, INT_MAX, rounds, |rounds| - 1);
    EmptyIsBalanced(d, cur, fuel - (|rounds| - 1), depth, rounds[|rounds| - 1]);
  }

  lemma {:induction false} FromLargest()
    ensures Rounds(0, INT_MAX) == 1 + 0x8000_0000
  {
    hide Wrap;
    NextIndex(INT_MAX);
    RoundsBelow(0, INT_MIN);
  }

  lemma {:induction false} EmptyIsBalanced(d: Dictionary, cur: int, fuel: nat, depth: nat, l: Local)
    ensures BalancedAt(d, cur, Empty, fuel, depth, l) && Eval(d, cur, Empty, fuel, depth, l) == Ended(l)
  {
  }

  lemma {:induction false} EmptyRounds(d: Dictionary, cur: int, fuel: nat, depth: nat, limit: int, start: int,
      rounds: seq<Local>, k: nat)
    requires AreRounds(d, cur, Empty, fuel, depth, [], limit, start, rounds) && k < |rounds|
    ensures rounds[k].ds == rounds[0].ds && rounds[k].w == rounds[0].w
  {
    hide BalancedAt, IndexIn, Eval;
    if k > 0 {
      EmptyRounds(d, cur, fuel, depth, limit, start, rounds, k - 1);
      EmptyIsBalanced(d, cur, fuel - (k - 1), depth, rounds[k - 1]);
      assert rounds[k - 1 + 1] == NextRound(d, cur, Empty, fuel - (k - 1), depth, rounds[k - 1], [], limit,
          IndexIn(start, k - 1 + 1));
    }
  }
}
