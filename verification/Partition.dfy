/** Moving the main-program fragments to the front (compile.c:790-799): the in-place loop with its
    memmove is a stable partition. */
module Partition {
  import opened Fragments

  predicate InWord(frags: seq<Fragment>, id: nat) {
    id < |frags| && frags[id].isWord
  }

  /** The fragments of words, or those of the main program, in their order. */
  function Selected(frags: seq<Fragment>, s: seq<nat>, word: bool): seq<nat> {
    if s == [] then []
    else
      var low, last := s[..|s| - 1], s[|s| - 1];
      if InWord(frags, last) == word then Selected(frags, low, word) + [last] else Selected(frags, low, word)
  }

  function Partitioned(frags: seq<Fragment>, s: seq<nat>): seq<nat> {
    Selected(frags, s, false) + Selected(frags, s, true)
  }

  /** The loop has partitioned what was before place i: m fragments of the main program come first. */
  ghost predicate SplitAt(frags: seq<Fragment>, was: seq<nat>, now: seq<nat>, m: nat, i: nat) {
    && m <= i <= |was| == |now|
    && now[..m] == Selected(frags, was[..i], false)
    && now[m..i] == Selected(frags, was[..i], true)
    && now[i..] == was[i..]
  }

  /** The loop of the compiler, in place. */
  method MoveMainToFront(frags: seq<Fragment>, sequence: array<nat>)
    requires forall i :: 0 <= i < sequence.Length ==> sequence[i] < |frags|
    modifies sequence
    ensures sequence[..] == Partitioned(frags, old(sequence[..]))
  {
    hide SplitAt, Partitioned, Selected;
    ghost var was := sequence[..];
    SplitAtStart(frags, was);
    var mainI := 0;
    for i := 0 to sequence.Length
      invariant 0 <= mainI <= i
      invariant SplitAt(frags, was, sequence[..], mainI, i)
    {
      NextUntouched(frags, was, sequence[..], mainI, i);
      var fragment := sequence[i];
      if !frags[fragment].isWord {
        ghost var before := sequence[..];
        forall j | mainI <= j < i { sequence[j + 1] := sequence[j]; }
        sequence[mainI] := fragment;
        MainGoesDown(frags, was, before, sequence[..], mainI, i);
        mainI := mainI + 1;
      } else {
        WordStays(frags, was, sequence[..], mainI, i);
      }
    }
    SplitAtEnd(frags, was, sequence[..], mainI);
  }

  lemma {:induction false} SplitAtStart(frags: seq<Fragment>, was: seq<nat>)
    ensures SplitAt(frags, was, was, 0, 0)
  {
    assert was[..0] == [];
  }

  lemma {:induction false} NextUntouched(frags: seq<Fragment>, was: seq<nat>, now: seq<nat>, m: nat, i: nat)
    requires SplitAt(frags, was, now, m, i) && i < |was|
    ensures now[i] == was[i]
  {
    hide Selected;
    assert now[i..][0] == was[i..][0];
  }

  lemma {:induction false} WordStays(frags: seq<Fragment>, was: seq<nat>, now: seq<nat>, m: nat, i: nat)
    requires SplitAt(frags, was, now, m, i) && i < |was| && InWord(frags, now[i])
    ensures SplitAt(frags, was, now, m, i + 1)
  {
    hide Selected;
    NextUntouched(frags, was, now, m, i);
    SelectedStep(frags, was, i);
    assert now[m..i + 1] == now[m..i] + [now[i]];
    assert now[i..][1..] == now[i + 1..] && was[i..][1..] == was[i + 1..];
  }

  lemma {:induction false} MainGoesDown(frags: seq<Fragment>, was: seq<nat>, before: seq<nat>, after: seq<nat>,
      m: nat, i: nat)
    requires SplitAt(frags, was, before, m, i) && i < |was| && !InWord(frags, before[i])
    requires |after| == |before| && after[m] == before[i]
    requires forall j :: m <= j < i ==> after[j + 1] == before[j]
    requires forall j :: 0 <= j < m || i < j < |before| ==> after[j] == before[j]
    ensures SplitAt(frags, was, after, m + 1, i + 1)
  {
    hide Selected;
    NextUntouched(frags, was, before, m, i);
    SelectedStep(frags, was, i);
    Rotated(before, after, m, i);
    assert before[i..][1..] == before[i + 1..] && was[i..][1..] == was[i + 1..];
  }

  lemma {:induction false} SplitAtEnd(frags: seq<Fragment>, was: seq<nat>, now: seq<nat>, m: nat)
    requires SplitAt(frags, was, now, m, |was|)
    ensures now == Partitioned(frags, was)
  {
    hide Selected;
    assert was[..|was|] == was && now[..m] + now[m..|was|] == now;
  }

  lemma {:induction false} SelectedStep(frags: seq<Fragment>, s: seq<nat>, i: nat)
    requires i < |s|
    ensures forall word ::
      Selected(frags, s[..i + 1], word)
      == Selected(frags, s[..i], word) + (if InWord(frags, s[i]) == word then [s[i]] else [])
  {
    assert s[..i + 1][..i] == s[..i];
  }

  lemma {:induction false} Rotated(before: seq<nat>, after: seq<nat>, m: nat, i: nat)
    requires m <= i < |before| == |after| && after[m] == before[i]
    requires forall j :: m <= j < i ==> after[j + 1] == before[j]
    requires forall j :: 0 <= j < m || i < j < |before| ==> after[j] == before[j]
    ensures after[..m + 1] == before[..m] + [before[i]]
    ensures after[m + 1..i + 1] == before[m..i]
    ensures after[i + 1..] == before[i + 1..]
  {
    forall k | 0 <= k < i - m ensures after[m + 1..i + 1][k] == before[m..i][k] {
      assert after[(m + k) + 1] == before[m + k];
    }
  }

  // ----- where each fragment goes -----

  /** How many fragments of the kind come before place k. */
  function Before(frags: seq<Fragment>, s: seq<nat>, k: nat, word: bool): nat
    requires k <= |s|
  {
    |Selected(frags, s[..k], word)|
  }

  /** The place that the fragment at k moves to. */
  function NewPlace(frags: seq<Fragment>, s: seq<nat>, k: nat): nat
    requires k < |s|
  {
    if InWord(frags, s[k]) then |Selected(frags, s, false)| + Before(frags, s, k, true) else Before(frags, s, k, false)
  }

  lemma {:induction false} SelectedPrefix(frags: seq<Fragment>, s: seq<nat>, k: nat, word: bool)
    requires k <= |s|
    ensures Selected(frags, s[..k], word) <= Selected(frags, s, word)
    decreases |s|
  {
    if k < |s| {
      SelectedPrefix(frags, s[..|s| - 1], k, word);
      assert s[..|s| - 1][..k] == s[..k];
    } else {
      assert s[..k] == s;
    }
  }

  lemma {:induction false} SelectedAt(frags: seq<Fragment>, s: seq<nat>, k: nat, word: bool)
    requires k < |s| && InWord(frags, s[k]) == word
    ensures Before(frags, s, k, word) < |Selected(frags, s, word)|
    ensures Selected(frags, s, word)[Before(frags, s, k, word)] == s[k]
  {
    SelectedPrefix(frags, s, k + 1, word);
    assert s[..k + 1][..k] == s[..k];
  }

  /** Nothing is lost: the fragment at k stands at its new place. */
  lemma {:induction false} MovesTo(frags: seq<Fragment>, s: seq<nat>, k: nat)
    requires k < |s|
    ensures NewPlace(frags, s, k) < |Partitioned(frags, s)|
    ensures Partitioned(frags, s)[NewPlace(frags, s, k)] == s[k]
  {
    SelectedAt(frags, s, k, InWord(frags, s[k]));
  }

  /** Nothing is added. */
  lemma {:induction false} SameLength(frags: seq<Fragment>, s: seq<nat>)
    ensures |Partitioned(frags, s)| == |s|
    decreases |s|
  {
    if s != [] { SameLength(frags, s[..|s| - 1]); }
  }

  /** The kinds are separated and each kind keeps its order. */
  lemma {:induction false} StableOrder(frags: seq<Fragment>, s: seq<nat>, j: nat, k: nat)
    requires j < k < |s|
    ensures InWord(frags, s[j]) == InWord(frags, s[k]) ==> NewPlace(frags, s, j) < NewPlace(frags, s, k)
    ensures !InWord(frags, s[j]) && InWord(frags, s[k]) ==> NewPlace(frags, s, j) < NewPlace(frags, s, k)
    ensures InWord(frags, s[j]) && !InWord(frags, s[k]) ==> NewPlace(frags, s, k) < NewPlace(frags, s, j)
  {
    var word := InWord(frags, s[j]);
    SelectedAt(frags, s, j, word);
    SelectedAt(frags, s, k, InWord(frags, s[k]));
    if InWord(frags, s[k]) == word {
      assert s[..k][j] == s[j];
      SelectedAt(frags, s[..k], j, word);
      assert s[..k][..j] == s[..j];
    }
  }

  /** A stretch of one kind moves as a block. */
  lemma {:induction false} BlockMoves(frags: seq<Fragment>, s: seq<nat>, lo: nat, i: nat, word: bool)
    requires lo + i < |s| && forall k :: lo <= k <= lo + i ==> InWord(frags, s[k]) == word
    ensures NewPlace(frags, s, lo + i) == NewPlace(frags, s, lo) + i
  {
    if i > 0 {
      BlockMoves(frags, s, lo, i - 1, word);
      assert s[..lo + i][..lo + i - 1] == s[..lo + i - 1];
    }
  }

  lemma {:induction false} SelectedFrom(frags: seq<Fragment>, s: seq<nat>, word: bool)
    requires NoRepeats(s)
    ensures NoRepeats(Selected(frags, s, word))
    ensures forall id :: id in Selected(frags, s, word) ==> id in s && InWord(frags, id) == word
    decreases |s|
  {
    if s != [] {
      var low := s[..|s| - 1];
      SelectedFrom(frags, low, word);
      assert forall id :: id in low ==> id in s && id != s[|s| - 1];
    }
  }

  lemma {:induction false} PartitionedNoRepeats(frags: seq<Fragment>, s: seq<nat>)
    requires NoRepeats(s)
    ensures NoRepeats(Partitioned(frags, s))
  {
    SelectedFrom(frags, s, false);
    SelectedFrom(frags, s, true);
    var a, b := Selected(frags, s, false), Selected(frags, s, true);
    forall i, j | 0 <= i < j < |a + b| ensures (a + b)[i] != (a + b)[j] {
      if i < |a| <= j {
        assert a[i] in a && b[j - |a|] in b;
      }
    }
  }
}
