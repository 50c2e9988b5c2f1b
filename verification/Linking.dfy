/** After the main program has been moved to the front: every word is still in one piece, and
    the pieces of top-level code follow one another from ENTRY to HALT. */
module Linking {
  import opened Fragments
  import opened Grammar
  import opened Partition
  import opened Program
  import opened FragmentMachine
  import opened Simulation

  function Linked(c: Code): Code {
    c.(order := Partitioned(c.frags, c.order))
  }

  /** Main-program fragments of ENTRY and the items. */
  function MainExtent(items: seq<Item>): nat {
    if items == [] then 1
    else MainExtent(items[..|items| - 1]) + if items[|items| - 1].Main? then Size(items[|items| - 1].body) else 0
  }

  /** The top-level code in order, from place 1. */
  ghost predicate MainPlaced(c: Code, items: seq<Item>) {
    if items == [] then At(c, 0, 0, Entry, 0)
    else
      var low, last := items[..|items| - 1], items[|items| - 1];
      && MainPlaced(c, low)
      && (last.Main? ==> Placed(c, |Definitions(low)| - 1, last.body, Extent(low), MainExtent(low)))
  }

  /** The linked program. */
  ghost predicate ProgramPlaced(c: Code, items: seq<Item>) {
    && NoRepeats(c.order) && MainPlaced(c, items)
    && At(c, MainExtent(items), Extent(items), Halt, -1)
    && |c.words| == |Definitions(items)|
    && forall k :: 0 <= k < |c.words| ==> WordPlaced(c, k, Definitions(items)[k])
  }

  lemma {:induction false} KindIs(c: Code, lo: nat, hi: nat, word: bool, k: nat)
    requires OfKind(c, lo, hi, word) && lo <= k < hi
    ensures k < |c.order| && InWord(c.frags, c.order[k]) == word
  {
  }

  /** Over a stretch of one kind, the count of that kind grows by one a place, the other stays. */
  lemma {:induction false} CountsOver(c: Code, lo: nat, i: nat, hi: nat, word: bool)
    requires OfKind(c, lo, hi, word) && lo + i <= hi
    ensures Before(c.frags, c.order, lo + i, word) == Before(c.frags, c.order, lo, word) + i
    ensures Before(c.frags, c.order, lo + i, !word) == Before(c.frags, c.order, lo, !word)
  {
    if i > 0 {
      CountsOver(c, lo, i - 1, hi, word);
      KindIs(c, lo, hi, word, lo + i - 1);
      assert c.order[..lo + i][..lo + i - 1] == c.order[..lo + i - 1];
    }
  }

  /** The fragment at k, in a stretch from lo that goes to p. */
  ghost predicate LandsAt(c: Code, p: nat, lo: nat, k: nat) {
    lo <= k < |c.order| && p + k - lo < |Linked(c).order| && Linked(c).order[p + k - lo] == c.order[k]
  }

  /** Such a stretch stands in one piece after linking. */
  lemma {:induction false} BlockLinked(c: Code, lo: nat, hi: nat, word: bool, n: nat, size: nat, skip: nat)
      returns (p: nat)
    requires OfKind(c, lo, hi, word) && lo + skip + size <= hi && n + size <= |c.frags|
    ensures p == Before(c.frags, c.order, lo, word) + if word then |Selected(c.frags, c.order, false)| else 0
    ensures |Linked(c).order| == |c.order|
    ensures forall k :: lo <= k < hi ==> LandsAt(c, p, lo, k)
    ensures Moved(c, Linked(c), n, lo + skip, p + skip, size)
  {
    p := Before(c.frags, c.order, lo, word) + if word then |Selected(c.frags, c.order, false)| else 0;
    SameLength(c.frags, c.order);
    forall k | lo <= k < hi ensures LandsAt(c, p, lo, k) {
      KindIs(c, lo, hi, word, k);
      CountsOver(c, lo, k - lo, hi, word);
      MovesTo(c.frags, c.order, k);
    }
    var c1 := Linked(c);
    BlockFits(c, lo, hi, word, p, skip + size);
    forall j | p + skip <= j < p + skip + size ensures c1.order[j] == c.order[j - (p + skip) + (lo + skip)] {
      var k := j - p + lo;
      assert LandsAt(c, p, lo, k);
    }
    assert c.words <= c1.words;
  }

  lemma {:induction false} BlockFits(c: Code, lo: nat, hi: nat, word: bool, p: nat, skip: nat)
    requires OfKind(c, lo, hi, word) && lo + skip <= hi
    requires p == Before(c.frags, c.order, lo, word) + if word then |Selected(c.frags, c.order, false)| else 0
    ensures p + skip <= |c.order|
  {
    CountsOver(c, lo, skip, hi, word);
    SelectedPrefix(c.frags, c.order, lo + skip, word);
    SameLength(c.frags, c.order);
  }

  // ----- the items -----

  /** How many main-program fragments stand before each item. */
  lemma {:induction false} MainBefore(c: Code, items: seq<Item>)
    requires ItemsPlaced(c, items)
    ensures Extent(items) <= |c.order| && Before(c.frags, c.order, Extent(items), false) == MainExtent(items)
  {
    hide At, Placed, Size;
    if items == [] {
      CountsOver(c, 0, 1, 1, false);
    } else {
      var low, last := items[..|items| - 1], items[|items| - 1];
      MainBefore(c, low);
      CountsOver(c, Extent(low), ItemSize(last), Extent(items), last.Definition?);
    }
  }

  lemma {:induction false} MainLinked(c: Code, items: seq<Item>)
    requires ItemsPlaced(c, items) && Extent(items) <= |c.frags|
    ensures MainPlaced(Linked(c), items)
  {
    hide Placed, Size, Partitioned, Moved, Before;
    if items == [] {
      EntryLinked(c);
    } else {
      var low, last := items[..|items| - 1], items[|items| - 1];
      MainLinked(c, low);
      match last
      case Definition(_) =>
      case Main(s) =>
        MainBefore(c, low);
        var at := Extent(low);
        var p := BlockLinked(c, at, at + Size(s), false, at, Size(s), 0);
        PlacedMoves(c, Linked(c), |Definitions(low)| - 1, s, at, at, p);
    }
  }

  lemma {:induction false} EntryLinked(c: Code)
    requires At(c, 0, 0, Entry, 0) && OfKind(c, 0, 1, false)
    ensures At(Linked(c), 0, 0, Entry, 0)
  {
    var p := BlockLinked(c, 0, 1, false, 0, 0, 0);
    assert LandsAt(c, p, 0, 0);
  }

  lemma {:induction false} HaltLinked(c: Code, items: seq<Item>)
    requires AllPlaced(c, items)
    ensures At(Linked(c), MainExtent(items), Extent(items), Halt, -1)
  {
    hide ItemsPlaced;
    MainBefore(c, items);
    var at := Extent(items);
    var p := BlockLinked(c, at, at + 1, false, 0, 0, 0);
    assert LandsAt(c, p, at, at);
  }

  /** A definition is in one piece. */
  lemma {:induction false} DefinitionLinked(c: Code, d: nat, s: Stmt, at: nat)
    requires ItemPlaced(c, d, Definition(s), at) && at + Size(s) + 2 <= |c.frags| && NoRepeats(Linked(c).order)
    ensures WordPlaced(Linked(c), d, s)
  {
    hide Placed, Size, Partitioned, Moved, Before, OfKind, Selected;
    DefinitionKind(c, d, s, at);
    var c1, hi := Linked(c), at + Size(s) + 2;
    var p := BlockLinked(c, at, hi, true, at + 1, Size(s), 1);
    PlacedMoves(c, c1, d, s, at + 1, at + 1, p + 1);
    assert LandsAt(c, p, at, at);
    var e := hi - 1;
    assert LandsAt(c, p, at, e);
    IndexIs(c1.order, p);
  }

  lemma {:induction false} DefinitionKind(c: Code, d: nat, s: Stmt, at: nat)
    requires ItemPlaced(c, d, Definition(s), at)
    ensures OfKind(c, at, at + Size(s) + 2, true)
  {
    hide Placed, Size, At;
  }

  lemma {:induction false} WordsLinked(c: Code, items: seq<Item>, k: nat)
    requires ItemsPlaced(c, items) && Extent(items) <= |c.frags| && NoRepeats(Linked(c).order)
    requires k < |Definitions(items)|
    ensures WordPlaced(Linked(c), k, Definitions(items)[k])
    decreases |items|
  {
    hide Placed, Size, Partitioned, WordPlaced, ItemPlaced, At, OfKind;
    var low, last := items[..|items| - 1], items[|items| - 1];
    ExtentSize(items);
    if k < |Definitions(low)| {
      WordsLinked(c, low, k);
    } else {
      DefinitionLinked(c, k, last.body, Extent(low));
    }
  }

  lemma {:induction false} ExtentSize(items: seq<Item>)
    requires items != []
    ensures Extent(items) == Extent(items[..|items| - 1]) + ItemSize(items[|items| - 1])
    ensures items[|items| - 1].Definition? ==> ItemSize(items[|items| - 1]) == Size(items[|items| - 1].body) + 2
  {
    hide Size;
  }

  /** Linking keeps every definition and the order of the main program. */
  lemma {:induction false} LinkingPlaces(c: Code, items: seq<Item>)
    requires AllPlaced(c, items) && NoRepeats(c.order)
    ensures ProgramPlaced(Linked(c), items)
  {
    hide ItemsPlaced, At, Partitioned, WordPlaced, MainPlaced;
    PartitionedNoRepeats(c.frags, c.order);
    MainLinked(c, items);
    HaltLinked(c, items);
    forall k | 0 <= k < |c.words| ensures WordPlaced(Linked(c), k, Definitions(items)[k]) {
      WordsLinked(c, items, k);
    }
  }
}
