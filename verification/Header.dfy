/** The binary header: what the compiler writes before the code (compile.c:822-912) and what an
    engine reads back (mcp_forth.c:268-370).  Addresses are offsets in an image that starts at a
    multiple of four. */
module Header {
  import opened Common
  import opened NumCodec
  import opened LittleEndian

  const RUNTIME_WORD_MISSING := 1
  const OUT_OF_MEMORY := 5
  const TOO_MANY_CALLBACKS := 6

  datatype Callback = Callback(info: byte, position: int)

  /** What goes in the header: the number of variables, the runtime words in order of their
      index, the data section, the callbacks and the literals. */
  datatype Contents = Contents(
    variables: nat,
    words: seq<seq<byte>>,
    data: seq<byte>,
    callbacks: seq<Callback>,
    literals: seq<int>)

  predicate NoZero(s: seq<byte>) {
    forall i :: 0 <= i < |s| ==> s[i] != 0
  }

  /** Counts and positions are 32-bit numbers and words have no zero in them. */
  predicate Writable(c: Contents) {
    && IsInt32(c.variables) && IsInt32(|c.words|) && IsInt32(|c.data|) && IsInt32(|c.callbacks|)
        && IsInt32(|c.literals|)
    && (forall i :: 0 <= i < |c.words| ==> NoZero(c.words[i]))
    && (forall i :: 0 <= i < |c.callbacks| ==> IsInt32(c.callbacks[i].position))
    && (forall i :: 0 <= i < |c.literals| ==> IsInt32(c.literals[i]))
  }

  // ----- what is written -----

  function LowerCase(b: byte): byte {
    if 65 <= b <= 90 then b + 32 else b
  }

  function Lowered(s: seq<byte>): (r: seq<byte>)
    ensures |r| == |s| && forall i :: 0 <= i < |s| ==> r[i] == LowerCase(s[i])
  {
    if s == [] then [] else Lowered(s[..|s| - 1]) + [LowerCase(s[|s| - 1])]
  }

  function WordBytes(words: seq<seq<byte>>): seq<byte> {
    if words == [] then [] else Lowered(words[0]) + [0] + WordBytes(words[1..])
  }

  function CallbackBytes(callbacks: seq<Callback>): seq<byte> {
    if callbacks == [] then [] else [callbacks[0].info] + Number(callbacks[0].position) + CallbackBytes(callbacks[1..])
  }

  function LiteralBytes(literals: seq<int>): seq<byte> {
    if literals == [] then [] else Le32(literals[0]) + LiteralBytes(literals[1..])
  }

  function Zeros(n: nat): (s: seq<byte>)
    ensures |s| == n
  {
    if n == 0 then [] else Zeros(n - 1) + [0]
  }

  function Aligned(n: int): int {
    (n + 3) / 4 * 4
  }

  function CallbackSection(c: Contents): seq<byte> {
    Number(|c.callbacks|) + (CallbackBytes(c.callbacks) + Number(|c.literals|))
  }

  function DataSection(c: Contents): seq<byte> {
    Number(|c.data|) + (c.data + CallbackSection(c))
  }

  /** Everything up to the alignment. */
  function Front(c: Contents): seq<byte> {
    Number(c.variables) + (Number(|c.words|) + (WordBytes(c.words) + DataSection(c)))
  }

  /** The header; the code follows. */
  function Written(c: Contents): seq<byte> {
    Front(c) + Zeros(PaddingOf(c)) + LiteralBytes(c.literals)
  }

  // ----- what is read -----

  /** A number at p, and the place after it. */
  function ReadNumber(image: seq<byte>, p: nat): Option<(int, nat)> {
    if p > |image| then None
    else
      match Decode(image[p..])
      case None => None
      case Some((n, used)) => Some((n, p + used))
  }

  /** A zero-terminated string at p, and the place after the zero. */
  function ReadString(image: seq<byte>, p: nat): Option<(seq<byte>, nat)>
    decreases |image| - p
  {
    if p >= |image| then None
    else if image[p] == 0 then Some(([], p + 1))
    else
      match ReadString(image, p + 1)
      case None => None
      case Some((s, next)) => Some(([image[p]] + s, next))
  }

  /** The first entry of the runtime tables with this name, the tables taken in order. */
  function Lookup(table: seq<seq<byte>>, name: seq<byte>): Option<nat> {
    if table == [] then None
    else if table[0] == name then Some(0)
    else
      match Lookup(table[1..], name)
      case None => None
      case Some(i) => Some(i + 1)
  }

  function Joined(arrays: seq<seq<seq<byte>>>): seq<seq<byte>> {
    if arrays == [] then [] else arrays[0] + Joined(arrays[1..])
  }

  datatype Words = Found(entries: seq<nat>, next: nat) | Missing(at: nat) | Broken

  function ResolveWords(image: seq<byte>, p: nat, n: int, table: seq<seq<byte>>): Words
    decreases n
  {
    if n <= 0 then Found([], p)
    else
      match ReadString(image, p)
      case None => Broken
      case Some((name, next)) =>
        match Lookup(table, name)
        case None => Missing(p)
        case Some(i) =>
          match ResolveWords(image, next, n - 1, table)
          case Found(entries, end) => Found([i] + entries, end)
          case w => w
  }

  function ReadCallbacks(image: seq<byte>, p: nat, n: int): Option<(seq<Callback>, nat)>
    decreases n
  {
    if n <= 0 then Some(([], p))
    else if p >= |image| then None
    else
      match ReadNumber(image, p + 1)
      case None => None
      case Some((position, next)) =>
        match ReadCallbacks(image, next, n - 1)
        case None => None
        case Some((rest, end)) => Some(([Callback(image[p], position)] + rest, end))
  }

  /** The tables an engine works with. */
  datatype Tables = Tables(
    variables: int,
    words: seq<nat>,
    dataStart: nat,
    callbacks: seq<Callback>,
    literals: int,
    programStart: int,
    memoryUsedEnd: int)

  datatype Outcome = Unpacked(t: Tables) | Refused(code: int) | Malformed

  function BytesRemaining(base: int, p: int, len: int): int {
    len - (p - base)
  }

  /** Where the engine's memory is, and what it can link against. */
  datatype Engine = Engine(memoryStart: int, memoryLen: int, arrays: seq<seq<seq<byte>>>, maxCallbacks: int)

  function AfterVariables(e: Engine, variables: int): int {
    Aligned(e.memoryStart) + 4 * variables
  }

  function AfterCallbacks(e: Engine, memory: int, callbacks: int): int {
    Aligned(memory + callbacks) + 4 * callbacks
  }

  function Unpack(image: seq<byte>, e: Engine): Outcome {
    match ReadNumber(image, 0)
    case None => Malformed
    case Some((variables, p1)) =>
      if BytesRemaining(e.memoryStart, AfterVariables(e, variables), e.memoryLen) < 0 then Refused(OUT_OF_MEMORY)
      else UnpackWords(image, e, variables, p1)
  }

  function UnpackWords(image: seq<byte>, e: Engine, variables: int, p1: nat): Outcome {
    match ReadNumber(image, p1)
    case None => Malformed
    case Some((words, p2)) =>
      if words != 0 && e.arrays == [] then Refused(RUNTIME_WORD_MISSING)
      else if BytesRemaining(e.memoryStart, AfterVariables(e, variables), e.memoryLen) < 4 * words
      then Refused(OUT_OF_MEMORY)
      else
        match ResolveWords(image, p2, words, Joined(e.arrays))
        case Broken => Malformed
        case Missing(_) => Refused(RUNTIME_WORD_MISSING)
        case Found(entries, p3) => UnpackData(image, e, variables, entries, p3)
  }

  function UnpackData(image: seq<byte>, e: Engine, variables: int, entries: seq<nat>, p3: nat): Outcome {
    match ReadNumber(image, p3)
    case None => Malformed
    case Some((dataLen, p4)) =>
      if dataLen < 0 then Malformed
      else
        match ReadNumber(image, p4 + dataLen)
        case None => Malformed
        case Some((n, p5)) =>
          if n > e.maxCallbacks then Refused(TOO_MANY_CALLBACKS)
          else UnpackCallbacks(image, e, variables, entries, p4, n, p5)
  }

  function UnpackCallbacks(image: seq<byte>, e: Engine, variables: int, entries: seq<nat>, dataStart: nat, n: int,
      p5: nat): Outcome {
    var memory := AfterCallbacks(e, AfterVariables(e, variables) + 4 * |entries|, n);
    if BytesRemaining(e.memoryStart, memory, e.memoryLen) < 0 then Refused(OUT_OF_MEMORY)
    else
      match ReadCallbacks(image, p5, n)
      case None => Malformed
      case Some((callbacks, p6)) =>
        match ReadNumber(image, p6)
        case None => Malformed
        case Some((literals, p7)) =>
          var start := Aligned(p7);
          Unpacked(Tables(variables, entries, dataStart, Located(callbacks, start + 4 * literals), start,
              start + 4 * literals, memory))
  }

  /** callback_word_locations: positions become addresses. */
  function Located(callbacks: seq<Callback>, programStart: int): (r: seq<Callback>)
    ensures |r| == |callbacks|
    ensures forall i :: 0 <= i < |r| ==> r[i] == Callback(callbacks[i].info, programStart + callbacks[i].position)
  {
    if callbacks == [] then []
    else [Callback(callbacks[0].info, programStart + callbacks[0].position)] + Located(callbacks[1..], programStart)
  }

  // ----- what is written is what is read -----

  /** The bytes s stand at p. */
  ghost predicate Has(image: seq<byte>, p: nat, s: seq<byte>) {
    p + |s| <= |image| && image[p..p + |s|] == s
  }

  lemma {:induction false} HasParts(image: seq<byte>, p: nat, x: seq<byte>, y: seq<byte>)
    requires Has(image, p, x + y)
    ensures Has(image, p, x) && Has(image, p + |x|, y)
  {
    assert (x + y)[..|x|] == x && (x + y)[|x|..] == y;
    assert image[p..p + |x + y|][..|x|] == image[p..p + |x|];
    assert image[p..p + |x + y|][|x|..] == image[p + |x|..p + |x + y|];
  }

  lemma {:induction false} NumberHere(image: seq<byte>, p: nat, n: int)
    requires IsInt32(n) && Has(image, p, Number(n))
    ensures ReadNumber(image, p) == Some((n, p + |Number(n)|))
  {
    hide Encoded, EncodedSize, Decode;
    RoundTrip(n, EncodedSize(n), image[p + |Number(n)|..]);
    assert image[p..] == Number(n) + image[p + |Number(n)|..];
  }

  lemma {:induction false} StringHere(image: seq<byte>, p: nat, s: seq<byte>)
    requires NoZero(s) && Has(image, p, s + [0])
    ensures ReadString(image, p) == Some((s, p + |s| + 1))
    decreases |s|
  {
    assert image[p..p + |s + [0]|][0] == image[p] == (s + [0])[0];
    if s != [] {
      assert s + [0] == [s[0]] + (s[1..] + [0]);
      HasParts(image, p, [s[0]], s[1..] + [0]);
      StringHere(image, p + 1, s[1..]);
      assert [s[0]] + s[1..] == s;
    }
  }

  lemma {:induction false} LoweredHasNoZero(s: seq<byte>)
    requires NoZero(s)
    ensures NoZero(Lowered(s))
  {
  }

  /** The entries of all words, when every word is known. */
  function LookupAll(words: seq<seq<byte>>, table: seq<seq<byte>>): Option<seq<nat>> {
    if words == [] then Some([])
    else
      match Lookup(table, Lowered(words[0]))
      case None => None
      case Some(i) =>
        match LookupAll(words[1..], table)
        case None => None
        case Some(rest) => Some([i] + rest)
  }

  lemma {:induction false} WordsHere(image: seq<byte>, p: nat, words: seq<seq<byte>>, table: seq<seq<byte>>)
    requires Has(image, p, WordBytes(words)) && forall i :: 0 <= i < |words| ==> NoZero(words[i])
    ensures match LookupAll(words, table)
      case Some(entries) => ResolveWords(image, p, |words|, table) == Found(entries, p + |WordBytes(words)|)
          && |entries| == |words|
      case None => ResolveWords(image, p, |words|, table).Missing?
    decreases |words|
  {
    hide Lookup, NoZero, Lowered, Has, ReadString;
    if words != [] {
      var name := Lowered(words[0]);
      LoweredHasNoZero(words[0]);
      HasParts(image, p, name + [0], WordBytes(words[1..]));
      StringHere(image, p, name);
      WordsHere(image, p + |name + [0]|, words[1..], table);
    }
  }

  lemma {:induction false} CallbacksHere(image: seq<byte>, p: nat, callbacks: seq<Callback>)
    requires Has(image, p, CallbackBytes(callbacks)) && forall i :: 0 <= i < |callbacks| ==>
        IsInt32(callbacks[i].position)
    ensures ReadCallbacks(image, p, |callbacks|) == Some((callbacks, p + |CallbackBytes(callbacks)|))
    decreases |callbacks|
  {
    hide Number, ReadNumber, Has;
    if callbacks != [] {
      var first, rest := callbacks[0], CallbackBytes(callbacks[1..]);
      assert [first.info] + Number(first.position) + rest == [first.info] + (Number(first.position) + rest);
      HasParts(image, p, [first.info], Number(first.position) + rest);
      ByteHere(image, p, first.info);
      HasParts(image, p + 1, Number(first.position), rest);
      NumberHere(image, p + 1, first.position);
      CallbacksHere(image, p + 1 + |Number(first.position)|, callbacks[1..]);
      assert [Callback(image[p], first.position)] + callbacks[1..] == callbacks;
    }
  }

  lemma {:induction false} ByteHere(image: seq<byte>, p: nat, b: byte)
    requires Has(image, p, [b])
    ensures p < |image| && image[p] == b
  {
    assert image[p..p + 1][0] == image[p];
  }

  /** Where the data section starts, after the two counts and the names. */
  function DataStart(c: Contents): nat {
    |Number(c.variables)| + |Number(|c.words|)| + |WordBytes(c.words)| + |Number(|c.data|)|
  }

  /** The outcome in terms of what was written: the checks in their order, and then the tables. */
  function Expected(c: Contents, e: Engine): Outcome {
    var m1 := AfterVariables(e, c.variables);
    var m2 := AfterCallbacks(e, m1 + 4 * |c.words|, |c.callbacks|);
    if BytesRemaining(e.memoryStart, m1, e.memoryLen) < 0 then Refused(OUT_OF_MEMORY)
    else if c.words != [] && e.arrays == [] then Refused(RUNTIME_WORD_MISSING)
    else if BytesRemaining(e.memoryStart, m1, e.memoryLen) < 4 * |c.words| then Refused(OUT_OF_MEMORY)
    else
      match LookupAll(c.words, Joined(e.arrays))
      case None => Refused(RUNTIME_WORD_MISSING)
      case Some(entries) =>
        if |c.callbacks| > e.maxCallbacks then Refused(TOO_MANY_CALLBACKS)
        else if BytesRemaining(e.memoryStart, m2, e.memoryLen) < 0 then Refused(OUT_OF_MEMORY)
        else Unpacked(Tables(c.variables, entries, DataStart(c), Located(c.callbacks, |Written(c)|),
                             |Written(c)| - 4 * |c.literals|, |Written(c)|, m2))
  }

  lemma {:induction false} LiteralBytesLength(literals: seq<int>)
    ensures |LiteralBytes(literals)| == 4 * |literals|
  {
    hide LowBytes;
    if literals != [] {
      LowBytesLength(literals[0] % TWO_32, 4);
      LiteralBytesLength(literals[1..]);
    }
  }

  lemma {:induction false} AlignedUp(n: nat)
    ensures 0 <= Aligned(n) - n < 4 && Aligned(n) % 4 == 0
  {
  }

  lemma {:induction false} WrittenLength(c: Contents)
    ensures |Written(c)| == Aligned(|Front(c)|) + 4 * |c.literals| && |Written(c)| % 4 == 0
  {
    hide Front, LiteralBytes, Aligned, Zeros;
    AlignedUp(|Front(c)|);
    LiteralBytesLength(c.literals);
  }

  /** The sections of the header, each at the place where the one before it ends. */
  lemma {:induction false} SectionsStand(image: seq<byte>, c: Contents)
      returns (p1: nat, p2: nat, p3: nat, p4: nat, p5: nat, p6: nat, p7: nat, p8: nat)
    requires Has(image, 0, Written(c))
    ensures p1 == |Number(c.variables)| && Has(image, 0, Number(c.variables))
    ensures p2 == p1 + |Number(|c.words|)| && Has(image, p1, Number(|c.words|))
    ensures p3 == p2 + |WordBytes(c.words)| && Has(image, p2, WordBytes(c.words))
    ensures p4 == p3 + |Number(|c.data|)| && Has(image, p3, Number(|c.data|))
    ensures p5 == p4 + |c.data| && Has(image, p4, c.data)
    ensures p6 == p5 + |Number(|c.callbacks|)| && Has(image, p5, Number(|c.callbacks|))
    ensures p7 == p6 + |CallbackBytes(c.callbacks)| && Has(image, p6, CallbackBytes(c.callbacks))
    ensures p8 == p7 + |Number(|c.literals|)| == |Front(c)| && Has(image, p7, Number(|c.literals|))
  {
    hide Has, Number, WordBytes, CallbackBytes, Zeros, LiteralBytes, Aligned, DataSection, CallbackSection;
    HasParts(image, 0, Front(c) + Zeros(PaddingOf(c)), LiteralBytes(c.literals));
    HasParts(image, 0, Front(c), Zeros(PaddingOf(c)));
    HasParts(image, 0, Number(c.variables), Number(|c.words|) + (WordBytes(c.words) + DataSection(c)));
    p1 := |Number(c.variables)|;
    HasParts(image, p1, Number(|c.words|), WordBytes(c.words) + DataSection(c));
    p2 := p1 + |Number(|c.words|)|;
    HasParts(image, p2, WordBytes(c.words), DataSection(c));
    p3 := p2 + |WordBytes(c.words)|;
    p4, p5 := DataStands(image, p3, c);
    p6, p7, p8 := CallbacksStand(image, p5, c);
  }

  lemma {:induction false} DataStands(image: seq<byte>, p3: nat, c: Contents) returns (p4: nat, p5: nat)
    requires Has(image, p3, DataSection(c))
    ensures p4 == p3 + |Number(|c.data|)| && Has(image, p3, Number(|c.data|))
    ensures p5 == p4 + |c.data| && Has(image, p4, c.data)
    ensures Has(image, p5, CallbackSection(c)) && p3 + |DataSection(c)| == p5 + |CallbackSection(c)|
  {
    hide Has, Number, CallbackSection;
    HasParts(image, p3, Number(|c.data|), c.data + CallbackSection(c));
    p4 := p3 + |Number(|c.data|)|;
    HasParts(image, p4, c.data, CallbackSection(c));
    p5 := p4 + |c.data|;
  }

  lemma {:induction false} CallbacksStand(image: seq<byte>, p5: nat, c: Contents) returns (p6: nat, p7: nat, p8: nat)
    requires Has(image, p5, CallbackSection(c))
    ensures p6 == p5 + |Number(|c.callbacks|)| && Has(image, p5, Number(|c.callbacks|))
    ensures p7 == p6 + |CallbackBytes(c.callbacks)| && Has(image, p6, CallbackBytes(c.callbacks))
    ensures p8 == p7 + |Number(|c.literals|)| == p5 + |CallbackSection(c)| && Has(image, p7, Number(|c.literals|))
  {
    hide Has, Number, CallbackBytes;
    HasParts(image, p5, Number(|c.callbacks|), CallbackBytes(c.callbacks) + Number(|c.literals|));
    p6 := p5 + |Number(|c.callbacks|)|;
    HasParts(image, p6, CallbackBytes(c.callbacks), Number(|c.literals|));
    p7 := p6 + |CallbackBytes(c.callbacks)|;
    p8 := p7 + |Number(|c.literals|)|;
  }

  function PaddingOf(c: Contents): nat {
    AlignedUp(|Front(c)|);
    Aligned(|Front(c)|) - |Front(c)|
  }

  // ----- what can be written -----

  predicate StringComesBack(s: seq<byte>) {
    ReadString(s + [0], 0) == Some((s, |s| + 1))
  }

  predicate LiteralComesBack(x: int) {
    |Le32(x)| == 4 && FromLe32(Le32(x)) == x
  }

  lemma {:induction false} ReadHasNoZero(image: seq<byte>, p: nat)
    ensures ReadString(image, p).Some? ==> NoZero(ReadString(image, p).value.0)
    decreases |image| - p
  {
    if p < |image| && image[p] != 0 { ReadHasNoZero(image, p + 1); }
  }

  lemma {:induction false} StringComesBackExactly(s: seq<byte>)
    ensures StringComesBack(s) <==> NoZero(s)
  {
    hide ReadString;
    ReadHasNoZero(s + [0], 0);
    if NoZero(s) {
      assert (s + [0])[0..|s + [0]|] == s + [0];
      StringHere(s + [0], 0, s);
    }
  }

  lemma {:induction false} LiteralComesBackExactly(x: int)
    ensures LiteralComesBack(x) <==> IsInt32(x)
  {
    hide LowBytes, FromLow;
    if IsInt32(x) { Le32Back(x); }
  }

  /** A header can be written exactly when every count, position, name and literal by itself would come
      back from its bytes. */
  lemma {:induction false} WritableExactly(c: Contents)
    ensures Writable(c) <==>
      && NumberComesBack(c.variables) && NumberComesBack(|c.words|) && NumberComesBack(|c.data|)
      && NumberComesBack(|c.callbacks|) && NumberComesBack(|c.literals|)
      && (forall i :: 0 <= i < |c.words| ==> StringComesBack(c.words[i]))
      && (forall i :: 0 <= i < |c.callbacks| ==> NumberComesBack(c.callbacks[i].position))
      && (forall i :: 0 <= i < |c.literals| ==> LiteralComesBack(c.literals[i]))
  {
    hide NumberComesBack, StringComesBack, LiteralComesBack, IsInt32, NoZero;
    NumberComesBackExactly(c.variables);
    NumberComesBackExactly(|c.words|);
    NumberComesBackExactly(|c.data|);
    NumberComesBackExactly(|c.callbacks|);
    NumberComesBackExactly(|c.literals|);
    forall i | 0 <= i < |c.words| ensures StringComesBack(c.words[i]) <==> NoZero(c.words[i]) {
      StringComesBackExactly(c.words[i]);
    }
    forall i | 0 <= i < |c.callbacks|
      ensures NumberComesBack(c.callbacks[i].position) <==> IsInt32(c.callbacks[i].position)
    {
      NumberComesBackExactly(c.callbacks[i].position);
    }
    forall i | 0 <= i < |c.literals| ensures LiteralComesBack(c.literals[i]) <==> IsInt32(c.literals[i]) {
      LiteralComesBackExactly(c.literals[i]);
    }
  }

  // ----- what is read back -----

  /** Reading what was written gives the tables that were meant, or the error of the first check
      that fails, whatever follows the header. */
  lemma {:induction false} HeaderRoundTrip(image: seq<byte>, c: Contents, e: Engine)
    requires Writable(c) && Has(image, 0, Written(c))
    ensures Unpack(image, e) == Expected(c, e)
  {
    hide Has, Number, ReadNumber, WordBytes, CallbackBytes, ResolveWords, ReadCallbacks, LookupAll, Joined, Aligned,
        Front, Written, NoZero, Located;
    var p1, p2, p3, p4, p5, p6, p7, p8 := SectionsStand(image, c);
    NumberHere(image, 0, c.variables);
    NumberHere(image, p1, |c.words|);
    WordsHere(image, p2, c.words, Joined(e.arrays));
    NumberHere(image, p3, |c.data|);
    NumberHere(image, p5, |c.callbacks|);
    CallbacksHere(image, p6, c.callbacks);
    NumberHere(image, p7, |c.literals|);
    WrittenLength(c);
  }

  /** The data section and the literals can be used in place: the data bytes stand where the
      tables say, and the literals at a multiple of four. */
  lemma {:induction false} SectionsUsable(image: seq<byte>, c: Contents, i: nat)
    requires Writable(c) && Has(image, 0, Written(c))
    ensures Has(image, DataStart(c), c.data)
    ensures var at := |Written(c)| - 4 * |c.literals|;
      && 0 <= at <= |Written(c)| <= |image| && at % 4 == 0 && |Written(c)| % 4 == 0
      && (i < |c.literals| ==> FromLe32(image[at + 4 * i..]) == c.literals[i])
  {
    hide Number, WordBytes, CallbackBytes, LiteralBytes, Le32, FromLe32, Zeros, Aligned, NoZero;
    var p1, p2, p3, p4, p5, p6, p7, p8 := SectionsStand(image, c);
    WrittenLength(c);
    AlignedUp(|Front(c)|);
    HasParts(image, 0, Front(c) + Zeros(PaddingOf(c)), LiteralBytes(c.literals));
    if i < |c.literals| {
      LiteralHere(image, |Front(c)| + PaddingOf(c), c.literals, i);
    }
  }

  lemma {:induction false} LiteralHere(image: seq<byte>, p: nat, literals: seq<int>, i: nat)
    requires Has(image, p, LiteralBytes(literals)) && i < |literals| && forall j :: 0 <= j < |literals| ==>
        IsInt32(literals[j])
    ensures p + 4 * i + 4 <= |image| && FromLe32(image[p + 4 * i..]) == literals[i]
    decreases i
  {
    hide Le32, FromLe32;
    Le32Back(literals[0]);
    HasParts(image, p, Le32(literals[0]), LiteralBytes(literals[1..]));
    if i == 0 {
      Le32Read(image, p, literals[0]);
    } else {
      LiteralHere(image, p + 4, literals[1..], i - 1);
    }
  }
}
