/** What the unpacked header is good for (mcp_forth.c:268-370): every runtime word is linked to the first
    entry with its name in small letters, and the tables have room of their own in the engine's memory. */
module HeaderTables {
  import opened Common
  import opened NumCodec
  import opened Header

  /** The first entry with the name, and none exactly when there is none. */
  lemma {:induction false} LookupIsFirst(table: seq<seq<byte>>, name: seq<byte>)
    ensures Lookup(table, name).Some? <==> name in table
    ensures Lookup(table, name).Some? ==>
      var i := Lookup(table, name).value; i < |table| && table[i] == name && forall j :: 0 <= j < i ==> table[j] != name
  {
    if table != [] {
      LookupIsFirst(table[1..], name);
      assert table == [table[0]] + table[1..];
    }
  }

  /** s in small letters. */
  ghost predicate SmallLetters(s: seq<byte>, small: seq<byte>) {
    && |small| == |s|
    && forall i :: 0 <= i < |s| ==> small[i] == if 65 <= s[i] <= 90 then s[i] + 32 else s[i]
  }

  lemma {:induction false} LoweredIsSmall(s: seq<byte>)
    ensures SmallLetters(s, Lowered(s))
  {
  }

  /** Entry i is where word i is to be found. */
  ghost predicate Links(words: seq<seq<byte>>, table: seq<seq<byte>>, entries: seq<nat>, i: nat) {
    && |entries| == |words| && i < |words| && entries[i] < |table| && SmallLetters(words[i], table[entries[i]])
    && forall j :: 0 <= j < entries[i] ==> !SmallLetters(words[i], table[j])
  }

  lemma {:induction false} LookupLinks(words: seq<seq<byte>>, table: seq<seq<byte>>, i: nat)
    requires LookupAll(words, table).Some? && i < |words|
    ensures Links(words, table, LookupAll(words, table).value, i)
    decreases |words|
  {
    hide Lookup, Lowered;
    var entries := LookupAll(words, table).value;
    LookupLength(words, table);
    if i == 0 {
      LookupIsFirst(table, Lowered(words[0]));
      LoweredIsSmall(words[0]);
      forall j | 0 <= j < entries[0] ensures !SmallLetters(words[0], table[j]) {
        OneSpelling(words[0], Lowered(words[0]), table[j]);
      }
    } else {
      LookupLinks(words[1..], table, i - 1);
    }
  }

  lemma {:induction false} LookupLength(words: seq<seq<byte>>, table: seq<seq<byte>>)
    requires LookupAll(words, table).Some?
    ensures |LookupAll(words, table).value| == |words|
  {
    hide Lookup, Lowered;
    if words != [] { LookupLength(words[1..], table); }
  }

  lemma {:induction false} OneSpelling(s: seq<byte>, a: seq<byte>, b: seq<byte>)
    ensures SmallLetters(s, a) && SmallLetters(s, b) ==> a == b
  {
  }

  lemma {:induction false} MissingWord(words: seq<seq<byte>>, table: seq<seq<byte>>) returns (i: nat)
    requires LookupAll(words, table).None?
    ensures i < |words| && forall j :: 0 <= j < |table| ==> !SmallLetters(words[i], table[j])
  {
    hide Lookup, Lowered, SmallLetters;
    i := 0;
    if Lookup(table, Lowered(words[0])).Some? {
      i := MissingWord(words[1..], table);
      i := i + 1;
    } else {
      LookupIsFirst(table, Lowered(words[0]));
      LoweredIsSmall(words[0]);
      forall j | 0 <= j < |table| ensures !SmallLetters(words[0], table[j]) {
        OneSpelling(words[0], Lowered(words[0]), table[j]);
      }
    }
  }

  /** Whenever a written header is unpacked, each of its words is linked to the first entry of the
      runtime tables with its name in small letters. */
  lemma {:induction false} WordsLink(image: seq<byte>, c: Contents, e: Engine, i: nat)
    requires Writable(c) && Has(image, 0, Written(c)) && Unpack(image, e).Unpacked? && i < |c.words|
    ensures Links(c.words, Joined(e.arrays), Unpack(image, e).t.words, i)
  {
    hide Writable, Has, Written, Unpack, Links, Joined, Located;
    HeaderRoundTrip(image, c, e);
    LookupLinks(c.words, Joined(e.arrays), i);
  }

  /** And when it is refused for a missing word, there are no tables or some word is in none of them. */
  lemma {:induction false} WordIsMissing(image: seq<byte>, c: Contents, e: Engine) returns (i: nat)
    requires Writable(c) && Has(image, 0, Written(c)) && Unpack(image, e) == Refused(RUNTIME_WORD_MISSING)
    ensures e.arrays == [] ||
      (i < |c.words| && forall j :: 0 <= j < |Joined(e.arrays)| ==> !SmallLetters(c.words[i], Joined(e.arrays)[j]))
  {
    hide Writable, Has, Written, Unpack, Joined, SmallLetters;
    HeaderRoundTrip(image, c, e);
    i := 0;
    if e.arrays != [] { i := MissingWord(c.words, Joined(e.arrays)); }
  }

  /** The engine's memory after unpacking: the variables from the first multiple of four on, the words,
      the signatures of the callbacks, and from the next multiple of four on their addresses; all of it
      within the memory, and the rest of the memory starts behind it at a multiple of four. */
  lemma {:induction false} TablesFit(image: seq<byte>, c: Contents, e: Engine)
    returns (variables: int, words: int, signatures: int, addresses: int)
    requires Writable(c) && Has(image, 0, Written(c)) && Unpack(image, e).Unpacked?
    ensures var end := Unpack(image, e).t.memoryUsedEnd;
      && variables % 4 == 0 && e.memoryStart <= variables < e.memoryStart + 4
      && words == variables + 4 * c.variables && signatures == words + 4 * |c.words|
      && addresses % 4 == 0 && signatures + |c.callbacks| <= addresses < signatures + |c.callbacks| + 4
      && end == addresses + 4 * |c.callbacks| && end % 4 == 0 && end <= e.memoryStart + e.memoryLen
  {
    hide Writable, Has, Written, Unpack, Joined, Located, LookupAll;
    HeaderRoundTrip(image, c, e);
    variables := Aligned(e.memoryStart);
    words := variables + 4 * c.variables;
    signatures := words + 4 * |c.words|;
    addresses := Aligned(signatures + |c.callbacks|);
    NextMultiple(e.memoryStart);
    NextMultiple(signatures + |c.callbacks|);
  }

  // ----- exactly when which check fails -----

  /** The table has an entry for the word. */
  ghost predicate Named(word: seq<byte>, table: seq<seq<byte>>) {
    exists j :: 0 <= j < |table| && SmallLetters(word, table[j])
  }

  ghost predicate AllNamed(words: seq<seq<byte>>, table: seq<seq<byte>>) {
    forall i :: 0 <= i < |words| ==> Named(words[i], table)
  }

  lemma {:induction false} LookupAllExactly(words: seq<seq<byte>>, table: seq<seq<byte>>)
    ensures LookupAll(words, table).Some? <==> AllNamed(words, table)
  {
    hide LookupAll, Links, Named;
    if LookupAll(words, table).Some? {
      forall i | 0 <= i < |words| ensures Named(words[i], table) {
        LookupLinks(words, table, i);
        LinkNames(words, table, LookupAll(words, table).value, i);
      }
    } else {
      var i := MissingWord(words, table);
      NotNamed(words[i], table);
    }
  }

  lemma {:induction false} NotNamed(word: seq<byte>, table: seq<seq<byte>>)
    requires forall j :: 0 <= j < |table| ==> !SmallLetters(word, table[j])
    ensures !Named(word, table)
  {
    hide SmallLetters;
  }

  lemma {:induction false} LinkNames(words: seq<seq<byte>>, table: seq<seq<byte>>, entries: seq<nat>, i: nat)
    requires Links(words, table, entries, i)
    ensures i < |words| && Named(words[i], table)
  {
    hide SmallLetters;
    assert SmallLetters(words[i], table[entries[i]]);
  }

  /** The entries of the tables are those of all the arrays. */
  lemma {:induction false} JoinedHasAll(arrays: seq<seq<seq<byte>>>, name: seq<byte>)
    ensures name in Joined(arrays) <==> exists k :: 0 <= k < |arrays| && name in arrays[k]
  {
    if arrays != [] {
      JoinedHasAll(arrays[1..], name);
      assert forall k :: 1 <= k < |arrays| ==> arrays[k] == arrays[1..][k - 1];
      if name in Joined(arrays[1..]) {
        var k :| 0 <= k < |arrays[1..]| && name in arrays[1..][k];
        assert name in arrays[k + 1];
      }
    }
  }

  /** A written header is refused, with the first of these that holds, when the variables have no room,
      there are words and no tables, the words have no room, a word is in no table, there are too many
      callbacks, or these have no room; and otherwise it is unpacked. */
  lemma {:induction false} RefusedExactly(image: seq<byte>, c: Contents, e: Engine)
    returns (variables: int, addresses: int)
    requires Writable(c) && Has(image, 0, Written(c))
    ensures variables % 4 == 0 && e.memoryStart <= variables < e.memoryStart + 4
    ensures var words := variables + 4 * c.variables; var signatures := words + 4 * |c.words|;
      && addresses % 4 == 0 && signatures + |c.callbacks| <= addresses < signatures + |c.callbacks| + 4
      && var o, limit := Unpack(image, e), e.memoryStart + e.memoryLen;
         if words > limit then o == Refused(5)
         else if c.words != [] && e.arrays == [] then o == Refused(1)
         else if signatures > limit then o == Refused(5)
         else if !AllNamed(c.words, Joined(e.arrays)) then o == Refused(1)
         else if |c.callbacks| > e.maxCallbacks then o == Refused(6)
         else if addresses + 4 * |c.callbacks| > limit then o == Refused(5)
         else o.Unpacked?
  {
    hide Writable, Has, Written, Unpack, Joined, Located, LookupAll, AllNamed, Aligned;
    HeaderRoundTrip(image, c, e);
    LookupAllExactly(c.words, Joined(e.arrays));
    variables := Aligned(e.memoryStart);
    addresses := Aligned(variables + 4 * c.variables + 4 * |c.words| + |c.callbacks|);
    NextMultiple(e.memoryStart);
    NextMultiple(variables + 4 * c.variables + 4 * |c.words| + |c.callbacks|);
  }

  lemma {:induction false} NextMultiple(n: int)
    ensures Aligned(n) % 4 == 0 && n <= Aligned(n) < n + 4
  {
  }
}
