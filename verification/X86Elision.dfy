/** The flags of the x86 backend meet what chore elision relies on. */
module X86Elision {
  import opened Fragments
  import opened Chores
  import opened X86Backend

  /** What the table generator guarantees of the builtins. */
  ghost predicate TablesOk(t: Tables) {
    forall n :: Ordered(t.flags(n))
  }

  /** Places where control comes from elsewhere: branch targets, the starts of words and of the
      program, and the places behind calls. */
  predicate IsEntry(frags: seq<Fragment>, order: seq<nat>, j: nat) {
    || (Known(frags, order, j) && frags[order[j]].op in {BranchLocation, DefinedWordLocation, Entry})
    || (j > 0 && Known(frags, order, j - 1) && frags[order[j - 1]].op in {DefinedWord, Execute})
  }

  /** Nothing is left out across a branch target, a call or a word start. */
  lemma {:induction false} EntriesAreClear(t: Tables, frags: seq<Fragment>, order: seq<nat>, j: nat)
    requires IsEntry(frags, order, j)
    ensures !Cut(FlagsOf(t, frags, order, |order|), j)
  {
    var flags := FlagsOf(t, frags, order, |order|);
    if 0 < j < |flags| {
      FlagAt(t, frags, order, |order|, j);
      FlagAt(t, frags, order, |order|, j - 1);
    }
  }

  lemma {:induction false} FlagsAreOrdered(t: Tables, frags: seq<Fragment>, order: seq<nat>, k: nat)
    requires TablesOk(t) && k < |order|
    ensures Ordered(FlagsOf(t, frags, order, |order|)[k])
  {
    FlagAt(t, frags, order, |order|, k);
  }

  /** The bodies come back only to entries, and those flagged CLOB do not read the top. */
  ghost predicate BodiesOk<M(!new), S(!new)>(p: Program<M, S>, frags: seq<Fragment>, order: seq<nat>) {
    && MemoryLaw(p)
    && (forall k, c: Cpu<M, S> :: 0 <= k < |order| && p.body(k, c).1.Jump? ==>
        IsEntry(frags, order, p.body(k, c).1.place))
    && (forall k :: 0 <= k < |p.flags| && p.flags[k].clob ==> Clobbers(p, k))
  }

  /** x86 code with the chores left out does what the code with all of them does. */
  lemma {:induction false} X86ElisionPreservesMeaning<M(!new), S(!new)>(
      t: Tables, frags: seq<Fragment>, order: seq<nat>, p: Program<M, S>, n: nat, start: nat, c: Cpu<M, S>)
    requires TablesOk(t) && p.flags == FlagsOf(t, frags, order, |order|) && BodiesOk(p, frags, order)
    requires IsEntry(frags, order, start)
    ensures var full, elided := Run(p, false, n, At(start, c)), Run(p, true, n, At(start, c));
      (full.Stopped? <==> elided.Stopped?) && (full.Stopped? ==> full == elided)
      && (full.At? && IsEntry(frags, order, full.place) ==> full == elided)
  {
    hide TablesOk, IsEntry, Cut, Ordered, Run, GetFlags, MemoryLaw;
    forall k | 0 <= k < |p.flags| ensures Ordered(p.flags[k]) {
      FlagsAreOrdered(t, frags, order, k);
    }
    forall k | 0 <= k < |p.flags| ensures JumpsClear(p, k) {
      forall d: Cpu<M, S> | p.body(k, d).1.Jump? ensures !Cut(p.flags, p.body(k, d).1.place) {
        EntriesAreClear(t, frags, order, p.body(k, d).1.place);
      }
    }
    EntriesAreClear(t, frags, order, start);
    ElisionPreservesMeaning(p, n, start, c);
    var full := Run(p, false, n, At(start, c));
    if full.At? && IsEntry(frags, order, full.place) { EntriesAreClear(t, frags, order, full.place); }
  }
}
