/** The branch-relaxation loop (compile.c:801-820) over any backend: it halts, at the pointwise
    least relaxation under which every displacement fits, hence at the smallest code. */
module Relaxation {

  /** What the loop asks of a backend, by place in the sequence: the size of a fragment at a
      relaxation, the place its operand refers to (its own when it has none), and whether an
      operand at this distance from the start of the fragment can be written.  `cap` is a
      relaxation at which every distance of less than 2^31 fits. */
  datatype Backend = Backend(
    size: (nat, nat) -> nat,
    target: nat -> nat,
    fits: (nat, nat, int) -> bool,
    cap: nat -> nat)

  const LIMIT := 0x8000_0000

  /** The position of place k when the fragments before it have these relaxations. */
  function Position(b: Backend, r: seq<nat>, k: nat): nat
    requires k <= |r|
  {
    if k == 0 then 0 else Position(b, r, k - 1) + b.size(k - 1, r[k - 1])
  }

  lemma {:induction false} FirstPosition(b: Backend, r: seq<nat>)
    ensures Position(b, r, 0) == 0
  {
  }

  function Distance(b: Backend, r: seq<nat>, k: nat): int
    requires k < |r| && b.target(k) < |r|
  {
    Position(b, r, b.target(k)) - Position(b, r, k)
  }

  ghost predicate Fitting(b: Backend, r: seq<nat>, k: nat) {
    k < |r| && b.target(k) < |r| && b.fits(k, r[k], Distance(b, r, k))
  }

  /** Every displacement fits the bytes reserved for it. */
  ghost predicate Solved(b: Backend, r: seq<nat>) {
    forall k :: 0 <= k < |r| ==> Fitting(b, r, k)
  }

  ghost predicate AtMost(r: seq<nat>, s: seq<nat>) {
    |r| == |s| && forall k :: 0 <= k < |r| ==> r[k] <= s[k]
  }

  // ----- the laws a backend obeys -----

  /** More relaxation never makes a fragment smaller. */
  ghost predicate Grows(b: Backend, n: nat) {
    forall k, x, y :: 0 <= k < n && x <= y ==> b.size(k, x) <= b.size(k, y)
  }

  /** A displacement that fits still fits when the target comes nearer on the same side. */
  ghost predicate Nearer(b: Backend, n: nat) {
    forall k, x, far, near ::
      0 <= k < n && b.fits(k, x, far)
      && (if b.target(k) > k then b.size(k, x) <= near <= far else far <= near <= 0)
      ==> b.fits(k, x, near)
  }

  ghost predicate Capped(b: Backend, n: nat) {
    forall k, d :: 0 <= k < n && -LIMIT <= d < LIMIT ==> b.fits(k, b.cap(k), d)
  }

  function Caps(b: Backend, n: nat): (r: seq<nat>)
    ensures |r| == n && forall k :: 0 <= k < n ==> r[k] == b.cap(k)
  {
    if n == 0 then [] else Caps(b, n - 1) + [b.cap(n - 1)]
  }

  ghost predicate Lawful(b: Backend, n: nat) {
    && (forall k :: 0 <= k < n ==> b.target(k) < n)
    && Grows(b, n) && Nearer(b, n) && Capped(b, n)
    && Position(b, Caps(b, n), n) < LIMIT
  }

  // ----- monotonicity -----

  /** The distance between two places grows with the relaxations between them. */
  lemma {:induction false} Spreads(b: Backend, r: seq<nat>, s: seq<nat>, lo: nat, hi: nat)
    requires Grows(b, |r|) && AtMost(r, s) && lo <= hi <= |r|
    ensures 0 <= Position(b, r, hi) - Position(b, r, lo) <= Position(b, s, hi) - Position(b, s, lo)
  {
    if lo < hi {
      Spreads(b, r, s, lo, hi - 1);
      assert b.size(hi - 1, r[hi - 1]) <= b.size(hi - 1, s[hi - 1]);
    }
  }

  /** Where r lies below a solved s and agrees with it, r fits too. */
  lemma {:induction false} FitsBelow(b: Backend, r: seq<nat>, s: seq<nat>, k: nat)
    requires Grows(b, |r|) && Nearer(b, |r|) && AtMost(r, s)
    requires k < |r| && b.target(k) < |r| && r[k] == s[k] && Fitting(b, s, k)
    ensures Fitting(b, r, k)
  {
    hide Grows, Position, AtMost;
    var t := b.target(k);
    if t > k {
      Spreads(b, r, s, k, t);
      OwnSize(b, r, k, t);
    } else {
      Spreads(b, r, s, t, k);
    }
  }

  lemma {:induction false} OwnSize(b: Backend, r: seq<nat>, k: nat, t: nat)
    requires Grows(b, |r|) && k < t <= |r|
    ensures Position(b, r, t) - Position(b, r, k) >= b.size(k, r[k])
  {
    Spreads(b, r, r, k + 1, t);
  }

  lemma {:induction false} PositionsBelowLimit(b: Backend, n: nat, k: nat)
    requires Lawful(b, n) && k <= n
    ensures 0 <= Position(b, Caps(b, n), k) < LIMIT
  {
    hide Position, Nearer, Capped;
    Spreads(b, Caps(b, n), Caps(b, n), k, n);
  }

  lemma {:induction false} CapsSolve(b: Backend, n: nat)
    requires Lawful(b, n)
    ensures Solved(b, Caps(b, n))
  {
    hide Position, Nearer, Grows;
    var c := Caps(b, n);
    forall k | 0 <= k < |c| ensures Fitting(b, c, k) {
      PositionsBelowLimit(b, n, k);
      PositionsBelowLimit(b, n, b.target(k));
    }
  }

  // ----- one pass -----

  /** r1 is r after one pass: one more where the displacement does not fit. */
  ghost predicate Bumped(b: Backend, r: seq<nat>, r1: seq<nat>) {
    |r1| == |r| && forall k :: 0 <= k < |r| ==> r1[k] == if Fitting(b, r, k) then r[k] else r[k] + 1
  }

  lemma {:induction false} BumpStaysBelow(b: Backend, r: seq<nat>, r1: seq<nat>, s: seq<nat>)
    requires Lawful(b, |r|) && AtMost(r, s) && Solved(b, s) && Bumped(b, r, r1)
    ensures AtMost(r1, s)
  {
    hide Position, Fitting, Nearer, Grows, Capped;
    forall k | 0 <= k < |r| ensures r1[k] <= s[k] {
      assert Fitting(b, s, k);
      if r[k] == s[k] { FitsBelow(b, r, s, k); }
    }
  }

  /** Below every solved vector. */
  ghost predicate BelowSolved(b: Backend, r: seq<nat>) {
    forall s :: |s| == |r| && Solved(b, s) ==> AtMost(r, s)
  }

  lemma {:induction false} BumpKeepsBelow(b: Backend, r: seq<nat>, r1: seq<nat>)
    requires Lawful(b, |r|) && BelowSolved(b, r) && Bumped(b, r, r1)
    ensures BelowSolved(b, r1)
  {
    hide Lawful, Solved, AtMost, Bumped;
    forall s | |s| == |r1| && Solved(b, s) ensures AtMost(r1, s) {
      BumpedLength(b, r, r1);
      BumpStaysBelow(b, r, r1, s);
    }
  }

  lemma {:induction false} BumpedLength(b: Backend, r: seq<nat>, r1: seq<nat>)
    requires Bumped(b, r, r1)
    ensures |r1| == |r|
  {
  }

  function Sum(r: seq<nat>): nat {
    if r == [] then 0 else Sum(r[..|r| - 1]) + r[|r| - 1]
  }

  lemma {:induction false} SumGrows(r: seq<nat>, s: seq<nat>)
    requires AtMost(r, s)
    ensures Sum(r) <= Sum(s) && (r != s ==> Sum(r) < Sum(s))
    decreases |r|
  {
    if r != [] {
      SumGrows(r[..|r| - 1], s[..|s| - 1]);
      assert r == r[..|r| - 1] + [r[|r| - 1]] && s == s[..|s| - 1] + [s[|s| - 1]];
    }
  }

  /** A pass that is not the last raises the sum, and the sum is bounded. */
  lemma {:induction false} PassRaises(b: Backend, r: seq<nat>, r1: seq<nat>)
    requires Lawful(b, |r|) && BelowSolved(b, r) && Bumped(b, r, r1)
    ensures Sum(r1) <= Sum(Caps(b, |r|))
    ensures !Solved(b, r) ==> Sum(r) < Sum(r1)
    ensures Solved(b, r) ==> r1 == r
  {
    hide Lawful, Fitting, Sum;
    BumpKeepsBelow(b, r, r1);
    CapsSolve(b, |r|);
    SumGrows(r1, Caps(b, |r|));
    SumGrows(r, r1);
  }

  // ----- the loop -----

  ghost predicate ValidOrder(order: seq<nat>, n: nat) {
    && (forall k :: 0 <= k < |order| ==> order[k] < n)
    && (forall j, k :: 0 <= j < k < |order| ==> order[j] != order[k])
  }

  /** The column of a fragment field, read in sequence order, is r. */
  ghost predicate Column(order: seq<nat>, field: seq<int>, r: seq<int>) {
    && |r| == |order|
    && forall k :: 0 <= k < |order| ==> order[k] < |field| && field[order[k]] == r[k]
  }

  ghost predicate PositionsUpTo(b: Backend, order: seq<nat>, field: seq<int>, r: seq<nat>, n: nat) {
    && |r| == |order| && n <= |order|
    && forall k :: 0 <= k < n ==> order[k] < |field| && field[order[k]] == Position(b, r, k)
  }

  lemma {:induction false} NextPosition(b: Backend, order: seq<nat>, field: seq<int>, r: seq<nat>, i: nat)
    requires ValidOrder(order, |field|) && PositionsUpTo(b, order, field, r, i) && i < |order|
    ensures order[i] < |field|
    ensures PositionsUpTo(b, order, field[order[i] := Position(b, r, i)], r, i + 1)
  {
    hide Position;
  }

  lemma {:induction false} NoPositions(b: Backend, order: seq<nat>, field: seq<int>, relaxation: seq<int>, r: seq<nat>)
    requires Column(order, relaxation, r)
    ensures |r| == |order| && Position(b, r, 0) == 0 && PositionsUpTo(b, order, field, r, 0)
  {
  }

  lemma {:induction false} NextSize(b: Backend, order: seq<nat>, field: seq<int>, r: seq<nat>, i: nat)
    requires Column(order, field, r) && i < |order|
    ensures order[i] < |field| && field[order[i]] == r[i]
    ensures Position(b, r, i + 1) == Position(b, r, i) + b.size(i, r[i])
  {
  }

  lemma {:induction false} RelaxationField(order: seq<nat>, field: seq<int>, r: seq<nat>, i: nat)
    requires Column(order, field, r) && i < |order|
    ensures order[i] < |field| && field[order[i]] == r[i]
  {
  }

  /** First half of a round: positions are the running sum of the sizes. */
  method AssignPositions(b: Backend, order: seq<nat>, position: array<int>, relaxation: array<int>, ghost r: seq<nat>)
    returns (codeLen: int)
    requires position != relaxation && ValidOrder(order, position.Length) && Column(order, relaxation[..], r)
    modifies position
    ensures codeLen == Position(b, r, |order|) && PositionsUpTo(b, order, position[..], r, |order|)
  {
    hide Position, PositionsUpTo, ValidOrder, Column;
    codeLen := 0;
    var i := 0;
    NoPositions(b, order, position[..], relaxation[..], r);
    while i < |order|
      invariant 0 <= i <= |order| == |r|
      invariant codeLen == Position(b, r, i) && PositionsUpTo(b, order, position[..], r, i)
    {
      NextPosition(b, order, position[..], r, i);
      NextSize(b, order, relaxation[..], r, i);
      ghost var was := position[..];
      position[order[i]] := codeLen;
      assert position[..] == was[order[i] := codeLen];
      codeLen := codeLen + b.size(i, relaxation[order[i]]);
      i := i + 1;
    }
  }

  /** The relaxation column while a pass is under way: places before i are done. */
  ghost predicate HalfBumped(b: Backend, order: seq<nat>, field: seq<int>, r: seq<nat>, i: nat) {
    && |r| == |order|
    && forall k :: 0 <= k < |order| ==>
         order[k] < |field| && field[order[k]] == if k < i && !Fitting(b, r, k) then r[k] + 1 else r[k]
  }

  lemma {:induction false} NextBump(b: Backend, order: seq<nat>, field: seq<int>, r: seq<nat>, i: nat)
    requires ValidOrder(order, |field|) && HalfBumped(b, order, field, r, i) && i < |order|
    ensures field[order[i]] == r[i]
    ensures HalfBumped(b, order, if Fitting(b, r, i) then field else field[order[i] := r[i] + 1], r, i + 1)
  {
    hide Fitting;
  }

  lemma {:induction false} BumpDone(b: Backend, order: seq<nat>, field: seq<int>, r: seq<nat>) returns (r1: seq<nat>)
    requires HalfBumped(b, order, field, r, |order|)
    ensures Bumped(b, r, r1) && Column(order, field, r1)
  {
    hide Fitting;
    r1 := BumpVector(b, r, |r|);
  }

  lemma {:induction false} BumpVector(b: Backend, r: seq<nat>, n: nat) returns (r1: seq<nat>)
    requires n <= |r|
    ensures |r1| == n && forall k :: 0 <= k < n ==> r1[k] == if Fitting(b, r, k) then r[k] else r[k] + 1
  {
    hide Fitting;
    if n == 0 { r1 := []; } else {
      r1 := BumpVector(b, r, n - 1);
      r1 := r1 + [if Fitting(b, r, n - 1) then r[n - 1] else r[n - 1] + 1];
    }
  }

  lemma {:induction false} FitCheck(b: Backend, order: seq<nat>, field: seq<int>, r: seq<nat>, i: nat)
    requires PositionsUpTo(b, order, field, r, |order|) && i < |order| && b.target(i) < |order|
    ensures Fitting(b, r, i) == b.fits(i, r[i], field[order[b.target(i)]] - field[order[i]])
  {
    hide Position;
  }

  /** Second half: every fragment whose displacement does not fit is relaxed by one. */
  method BumpMisfits(b: Backend, order: seq<nat>, position: array<int>, relaxation: array<int>, ghost r: seq<nat>)
    returns (solved: bool, ghost r1: seq<nat>)
    requires position != relaxation && ValidOrder(order, position.Length) && ValidOrder(order, relaxation.Length)
    requires Column(order, relaxation[..], r) && PositionsUpTo(b, order, position[..], r, |order|)
    requires forall k :: 0 <= k < |order| ==> b.target(k) < |order|
    modifies relaxation
    ensures Bumped(b, r, r1) && Column(order, relaxation[..], r1)
    ensures solved <==> Solved(b, r)
  {
    hide Position, Fitting;
    solved := true;
    var i := 0;
    while i < |order|
      invariant 0 <= i <= |order|
      invariant HalfBumped(b, order, relaxation[..], r, i)
      invariant solved <==> forall k :: 0 <= k < i ==> Fitting(b, r, k)
    {
      NextBump(b, order, relaxation[..], r, i);
      FitCheck(b, order, position[..], r, i);
      var fragOk := b.fits(i, relaxation[order[i]], position[order[b.target(i)]] - position[order[i]]);
      if !fragOk {
        solved := false;
        relaxation[order[i]] := relaxation[order[i]] + 1;
      }
      i := i + 1;
    }
    r1 := BumpDone(b, order, relaxation[..], r);
  }

  lemma {:induction false} ZerosBelow(b: Backend, r: seq<nat>)
    requires forall k :: 0 <= k < |r| ==> r[k] == 0
    ensures BelowSolved(b, r)
  {
    hide Solved;
  }

  /** The loop.  Relaxations start at 0, as fragments are created.  It ends with every
      displacement fitting, positions equal to the running sums of the final sizes, and no
      vector that fits anywhere below the one found. */
  method Solve(b: Backend, order: seq<nat>, position: array<int>, relaxation: array<int>)
      returns (codeLen: int, ghost r: seq<nat>)
    requires position != relaxation && ValidOrder(order, position.Length) && ValidOrder(order, relaxation.Length)
    requires Lawful(b, |order|)
    requires forall k :: 0 <= k < |order| ==> relaxation[order[k]] == 0
    modifies position, relaxation
    ensures Column(order, relaxation[..], r) && PositionsUpTo(b, order, position[..], r, |order|)
    ensures Solved(b, r) && BelowSolved(b, r)
    ensures codeLen == Position(b, r, |order|)
  {
    r := seq(|order|, _ => 0);
    ZerosBelow(b, r);
    assert forall k :: 0 <= k < |order| ==> b.target(k) < |order|;
    hide Lawful, Solved, BelowSolved, PositionsUpTo, Bumped, Position;
    codeLen := 0;
    var solved := false;
    while !solved
      invariant Column(order, relaxation[..], r) && BelowSolved(b, r)
      invariant solved ==>
        Solved(b, r) && codeLen == Position(b, r, |order|)
        && PositionsUpTo(b, order, position[..], r, |order|)
      decreases !solved, Sum(Caps(b, |order|)) - Sum(r)
    {
      codeLen := AssignPositions(b, order, position, relaxation, r);
      ghost var r1;
      solved, r1 := BumpMisfits(b, order, position, relaxation, r);
      PassRaises(b, r, r1);
      BumpKeepsBelow(b, r, r1);
      r := r1;
    }
  }

  /** The least relaxations give the smallest code and the earliest positions. */
  lemma {:induction false} LeastIsSmallest(b: Backend, r: seq<nat>, s: seq<nat>, k: nat)
    requires Lawful(b, |r|) && BelowSolved(b, r) && |s| == |r| && Solved(b, s) && k <= |r|
    ensures AtMost(r, s) && Position(b, r, k) <= Position(b, s, k)
  {
    Spreads(b, r, s, 0, k);
  }

  /** There is only one such vector. */
  lemma {:induction false} LeastIsUnique(b: Backend, r: seq<nat>, s: seq<nat>)
    requires |r| == |s| && Solved(b, r) && BelowSolved(b, r) && Solved(b, s) && BelowSolved(b, s)
    ensures r == s
  {
    assert AtMost(r, s) && AtMost(s, r);
  }
}
