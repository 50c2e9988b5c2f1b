/** String literals (compile.c:134-192, 226-237, 311-319, 584-601, 885-891): escapes, the pool that
    shares equal literals, and the data section. */
module StringLiterals {
  import opened Common
  import opened NumCodec

  const QUOTE: byte := 34
  const BACKSLASH: byte := 92
  const NEWLINE: byte := 10

  datatype Iter = Char(c: byte, next: nat) | EndedOk(next: nat) | EndedEarly

  /** What a backslash and this character stand for; None when the backslash stands for itself. */
  function Escape(c: byte): Option<byte> {
    if c == BACKSLASH || c == QUOTE then Some(c)
    else if c == 110 then Some(NEWLINE)
    else if c == 114 then Some(13)
    else if c == 116 then Some(9)
    else None
  }

  /** escaped_string_iter_char: the next character of the literal at p.  A backslash at the end of
      a line joins it to the next one. */
  function IterChar(src: seq<byte>, p: nat): Iter
    decreases |src| - p
  {
    if p >= |src| then EndedEarly
    else if src[p] == QUOTE then EndedOk(p + 1)
    else if src[p] != BACKSLASH then Char(src[p], p + 1)
    else if p + 1 >= |src| then EndedEarly
    else if src[p + 1] == NEWLINE then IterChar(src, p + 2)
    else match Escape(src[p + 1])
      case Some(c) => Char(c, p + 2)
      case None => Char(BACKSLASH, p + 1)
  }

  lemma {:induction false} IterMoves(src: seq<byte>, p: nat)
    ensures IterChar(src, p).Char? ==> p < IterChar(src, p).next <= |src|
    decreases |src| - p
  {
    if p + 1 < |src| && src[p] == BACKSLASH && src[p + 1] == NEWLINE { IterMoves(src, p + 2); }
  }

  /** The characters of the literal at p, and the place after its closing quote. */
  function Unescape(src: seq<byte>, p: nat): Option<(seq<byte>, nat)>
    decreases |src| - p
  {
    IterMoves(src, p);
    match IterChar(src, p)
    case EndedEarly => None
    case EndedOk(next) => Some(([], next))
    case Char(c, next) =>
      match Unescape(src, next)
      case None => None
      case Some((s, end)) => Some(([c] + s, end))
  }

  function TextOf(src: seq<byte>, p: nat): seq<byte> {
    match Unescape(src, p)
    case None => []
    case Some((s, _)) => s
  }

  // ----- every string can be written -----

  function Quoted(s: seq<byte>): seq<byte> {
    if s == [] then []
    else (if s[0] == QUOTE || s[0] == BACKSLASH then [BACKSLASH, s[0]] else [s[0]]) + Quoted(s[1..])
  }

  lemma {:induction false} IterAt(pre: seq<byte>, c: byte, rest: seq<byte>)
    ensures var piece := if c == QUOTE || c == BACKSLASH then [BACKSLASH, c] else [c];
      IterChar(pre + (piece + rest), |pre|) == Char(c, |pre| + |piece|)
  {
    var piece := if c == QUOTE || c == BACKSLASH then [BACKSLASH, c] else [c];
    var src := pre + (piece + rest);
    assert src[|pre|] == piece[0] && (|piece| == 2 ==> src[|pre| + 1] == piece[1]);
  }

  /** Decoding undoes quoting, for every string and whatever surrounds it. */
  lemma {:induction false} QuotedDecodes(pre: seq<byte>, s: seq<byte>, rest: seq<byte>)
    ensures Unescape(pre + (Quoted(s) + ([QUOTE] + rest)), |pre|) == Some((s, |pre| + |Quoted(s)| + 1))
    decreases |s|
  {
    hide IterChar;
    var src := pre + (Quoted(s) + ([QUOTE] + rest));
    if s == [] {
      assert Quoted(s) + ([QUOTE] + rest) == [QUOTE] + rest;
      ClosesAt(pre, rest);
    } else {
      var piece := if s[0] == QUOTE || s[0] == BACKSLASH then [BACKSLASH, s[0]] else [s[0]];
      var tail := Quoted(s[1..]) + ([QUOTE] + rest);
      assert Quoted(s) + ([QUOTE] + rest) == piece + tail;
      assert pre + (piece + tail) == (pre + piece) + tail;
      IterAt(pre, s[0], tail);
      QuotedDecodes(pre + piece, s[1..], rest);
      assert [s[0]] + s[1..] == s;
    }
  }

  lemma {:induction false} ClosesAt(pre: seq<byte>, rest: seq<byte>)
    ensures IterChar(pre + ([QUOTE] + rest), |pre|) == EndedOk(|pre| + 1)
  {
    var src := pre + ([QUOTE] + rest);
    assert src[|pre|] == QUOTE;
  }

  // ----- what every spelling means -----

  /** The pieces that a literal is made of, as it is written: a character that stands for itself, an
      escape, a backslash at the end of a line, and a backslash before any other character. */
  datatype Piece = Itself(c: byte) | Escaped(c: byte) | JoinsLines | OddBackslash(c: byte)

  const LOWER_N: byte := 110
  const LOWER_R: byte := 114
  const LOWER_T: byte := 116

  predicate IsPiece(x: Piece) {
    match x
    case Itself(c) => c != QUOTE && c != BACKSLASH
    case Escaped(c) => c in {QUOTE, BACKSLASH, LOWER_N, LOWER_R, LOWER_T}
    case JoinsLines => true
    case OddBackslash(c) => c !in {QUOTE, BACKSLASH, LOWER_N, LOWER_R, LOWER_T, NEWLINE}
  }

  function Written(x: Piece): seq<byte> {
    match x
    case Itself(c) => [c]
    case Escaped(c) => [BACKSLASH, c]
    case JoinsLines => [BACKSLASH, NEWLINE]
    case OddBackslash(c) => [BACKSLASH, c]
  }

  function Meant(x: Piece): seq<byte> {
    match x
    case Itself(c) => [c]
    case Escaped(c) =>
      [if c == LOWER_N then 10 else if c == LOWER_R then 13 else if c == LOWER_T then 9 else c]
    case JoinsLines => []
    case OddBackslash(c) => [BACKSLASH, c]
  }

  function AllWritten(xs: seq<Piece>): seq<byte> {
    if xs == [] then [] else Written(xs[0]) + AllWritten(xs[1..])
  }

  function AllMeant(xs: seq<Piece>): seq<byte> {
    if xs == [] then [] else Meant(xs[0]) + AllMeant(xs[1..])
  }

  /** What comes after one piece decides the rest. */
  lemma {:induction false} PieceDecodes(pre: seq<byte>, x: Piece, tail: seq<byte>)
    requires IsPiece(x)
    ensures var p, q := |pre|, |pre| + |Written(x)|;
      var src := pre + (Written(x) + tail);
      Unescape(src, p) == Preceded(Meant(x), Unescape(src, q))
  {
    var src := pre + (Written(x) + tail);
    var p := |pre|;
    assert src[p] == Written(x)[0] && (|Written(x)| == 2 ==> src[p + 1] == Written(x)[1]);
    match x
    case Itself(_) => OneChar(src, p);
    case Escaped(_) => OneChar(src, p);
    case JoinsLines => LineJoins(src, p);
    case OddBackslash(_) =>
      OneChar(src, p);
      OneChar(src, p + 1);
      TwoPreceded(BACKSLASH, x.c, Unescape(src, p + 2));
  }

  function Preceded(s: seq<byte>, r: Option<(seq<byte>, nat)>): Option<(seq<byte>, nat)> {
    match r
    case None => None
    case Some((t, end)) => Some((s + t, end))
  }

  lemma {:induction false} TwoPreceded(a: byte, b: byte, r: Option<(seq<byte>, nat)>)
    ensures Preceded([a], Preceded([b], r)) == Preceded([a, b], r)
  {
    if r.Some? { assert [a] + ([b] + r.value.0) == [a, b] + r.value.0; }
  }

  lemma {:induction false} OneChar(src: seq<byte>, p: nat)
    requires IterChar(src, p).Char?
    ensures Unescape(src, p) == Preceded([IterChar(src, p).c], Unescape(src, IterChar(src, p).next))
  {
    hide IterChar;
    IterMoves(src, p);
  }

  lemma {:induction false} LineJoins(src: seq<byte>, p: nat)
    requires p + 1 < |src| && src[p] == BACKSLASH && src[p + 1] == NEWLINE
    ensures IterChar(src, p) == IterChar(src, p + 2) && Unescape(src, p) == Preceded([], Unescape(src, p + 2))
  {
    IterMoves(src, p + 2);
    if Unescape(src, p + 2).Some? { assert [] + Unescape(src, p + 2).value.0 == Unescape(src, p + 2).value.0; }
  }

  /** A literal made of any pieces means what its pieces mean, in order: `\n`, `\r` and `\t` are
      newline, return and tab, `\\` and `\"` stand for themselves, a backslash at the end of a line
      vanishes with it, and before any other character it stays. */
  lemma {:induction false} PiecesDecode(pre: seq<byte>, xs: seq<Piece>, rest: seq<byte>)
    requires forall i :: 0 <= i < |xs| ==> IsPiece(xs[i])
    ensures Unescape(pre + (AllWritten(xs) + ([QUOTE] + rest)), |pre|)
         == Some((AllMeant(xs), |pre| + |AllWritten(xs)| + 1))
    decreases |xs|
  {
    hide Unescape, Written, Meant, IsPiece;
    if xs == [] {
      assert AllWritten(xs) + ([QUOTE] + rest) == [QUOTE] + rest;
      Closes(pre, rest);
    } else {
      var first, tail := Written(xs[0]), AllWritten(xs[1..]) + ([QUOTE] + rest);
      assert AllWritten(xs) + ([QUOTE] + rest) == first + tail;
      assert pre + (first + tail) == (pre + first) + tail;
      PieceDecodes(pre, xs[0], tail);
      PiecesDecode(pre + first, xs[1..], rest);
    }
  }

  lemma {:induction false} Closes(pre: seq<byte>, rest: seq<byte>)
    ensures Unescape(pre + ([QUOTE] + rest), |pre|) == Some(([], |pre| + 1))
  {
    ClosesAt(pre, rest);
  }

  /** The piece that the literal at p begins with. */
  function PieceAt(src: seq<byte>, p: nat): Piece
    requires p < |src| && src[p] != QUOTE && (src[p] == BACKSLASH ==> p + 1 < |src|)
  {
    if src[p] != BACKSLASH then Itself(src[p])
    else if src[p + 1] == NEWLINE then JoinsLines
    else if src[p + 1] in {QUOTE, BACKSLASH, LOWER_N, LOWER_R, LOWER_T} then Escaped(src[p + 1])
    else OddBackslash(src[p + 1])
  }

  lemma {:induction false} PieceStands(src: seq<byte>, p: nat)
    requires p < |src| && src[p] != QUOTE && (src[p] == BACKSLASH ==> p + 1 < |src|)
    ensures var x := PieceAt(src, p); var q := p + |Written(x)|;
      IsPiece(x) && p < q <= |src| && src[p..q] == Written(x)
  {
  }

  lemma {:induction false} PieceCut(src: seq<byte>, p: nat, x: Piece)
    requires IsPiece(x) && p + |Written(x)| <= |src| && src[p..p + |Written(x)|] == Written(x)
    ensures Unescape(src, p) == Preceded(Meant(x), Unescape(src, p + |Written(x)|))
  {
    hide Unescape, Written, Meant, IsPiece;
    var pre, tail := src[..p], src[p + |Written(x)|..];
    assert src == pre + (Written(x) + tail);
    PieceDecodes(pre, x, tail);
  }

  lemma {:induction false} NotTerminated(src: seq<byte>, p: nat)
    requires p <= |src| && (p < |src| ==> src[p] == BACKSLASH && p + 1 == |src|)
    ensures Unescape(src, p) == None
  {
  }

  /** Every source from any place on is pieces up to a closing quote, to the end, or to a backslash at
      the end; a literal is read exactly where a quote comes first, and then it means what its pieces
      mean. */
  lemma {:induction false} ReadExactly(src: seq<byte>, p: nat) returns (xs: seq<Piece>, q: nat)
    requires p <= |src|
    ensures (forall i :: 0 <= i < |xs| ==> IsPiece(xs[i])) && p <= q <= |src| && src[p..q] == AllWritten(xs)
    ensures q < |src| ==> src[q] == QUOTE || (src[q] == BACKSLASH && q + 1 == |src|)
    ensures Unescape(src, p) == if q < |src| && src[q] == QUOTE then Some((AllMeant(xs), q + 1)) else None
    decreases |src| - p
  {
    hide Unescape, Written, Meant, IsPiece, PieceAt;
    xs, q := [], p;
    if p < |src| && src[p] == QUOTE {
      ReadsQuote(src, p);
    } else if p == |src| || (src[p] == BACKSLASH && p + 1 == |src|) {
      NotTerminated(src, p);
    } else {
      PieceStands(src, p);
      var x := PieceAt(src, p);
      var mid := p + |Written(x)|;
      PieceCut(src, p, x);
      var ys;
      ys, q := ReadExactly(src, mid);
      xs := [x] + ys;
      assert xs[1..] == ys && src[p..q] == src[p..mid] + src[mid..q];
    }
  }

  lemma {:induction false} ReadsQuote(src: seq<byte>, p: nat)
    requires p < |src| && src[p] == QUOTE
    ensures Unescape(src, p) == Some(([], p + 1))
  {
  }

  // ----- the pool -----

  /** nstring_t: where the literal starts in the source, and its decoded length. */
  datatype Entry = Entry(at: nat, len: nat)

  ghost predicate Sound(src: seq<byte>, pool: seq<Entry>) {
    && (forall i :: 0 <= i < |pool| ==> pool[i].len == |TextOf(src, pool[i].at)|)
    && (forall i, j :: 0 <= i < j < |pool| ==> TextOf(src, pool[i].at) != TextOf(src, pool[j].at))
  }

  /** find_nstring_escaped. */
  function Find(src: seq<byte>, pool: seq<Entry>, text: seq<byte>): Option<nat> {
    if pool == [] then None
    else if TextOf(src, pool[0].at) == text then Some(0)
    else match Find(src, pool[1..], text)
      case None => None
      case Some(i) => Some(i + 1)
  }

  lemma {:induction false} FindFinds(src: seq<byte>, pool: seq<Entry>, text: seq<byte>)
    ensures match Find(src, pool, text)
      case Some(i) => i < |pool| && TextOf(src, pool[i].at) == text
      case None => forall j :: 0 <= j < |pool| ==> TextOf(src, pool[j].at) != text
  {
    hide TextOf;
    if pool != [] { FindFinds(src, pool[1..], text); }
  }

  /** The pool after a literal at p has been met, and its index. */
  function Added(src: seq<byte>, pool: seq<Entry>, p: nat): (seq<Entry>, nat) {
    match Find(src, pool, TextOf(src, p))
    case Some(i) => (pool, i)
    case None => (pool + [Entry(p, |TextOf(src, p)|)], |pool|)
  }

  /** The data offset of an entry: the lengths before it, each with its zero. */
  function OffsetOf(pool: seq<Entry>, i: nat): nat
    requires i <= |pool|
  {
    if i == 0 then 0 else OffsetOf(pool, i - 1) + pool[i - 1].len + 1
  }

  /** The data section: every decoded literal followed by a zero byte. */
  function DataBytes(src: seq<byte>, pool: seq<Entry>): seq<byte> {
    if pool == [] then [] else DataBytes(src, pool[..|pool| - 1]) + TextOf(src, pool[|pool| - 1].at) + [0]
  }

  lemma {:induction false} AddedIs(src: seq<byte>, pool: seq<Entry>, p: nat)
    requires Sound(src, pool)
    ensures var (pool1, i) := Added(src, pool, p);
      && Sound(src, pool1) && pool <= pool1 && i < |pool1|
      && TextOf(src, pool1[i].at) == TextOf(src, p) && pool1[i].len == |TextOf(src, p)|
  {
    hide TextOf;
    FindFinds(src, pool, TextOf(src, p));
  }

  lemma {:induction false} OffsetsStay(pool: seq<Entry>, later: seq<Entry>, i: nat)
    requires pool <= later && i <= |pool|
    ensures OffsetOf(pool, i) == OffsetOf(later, i)
  {
    if i > 0 { OffsetsStay(pool, later, i - 1); }
  }

  lemma {:induction false} OffsetsGrow(pool: seq<Entry>, i: nat, j: nat)
    requires i < j <= |pool|
    ensures OffsetOf(pool, i) < OffsetOf(pool, j)
  {
    if i < j - 1 { OffsetsGrow(pool, i, j - 1); }
  }

  lemma {:induction false} DataLength(src: seq<byte>, pool: seq<Entry>)
    requires forall i :: 0 <= i < |pool| ==> pool[i].len == |TextOf(src, pool[i].at)|
    ensures |DataBytes(src, pool)| == OffsetOf(pool, |pool|)
  {
    hide TextOf;
    if pool != [] {
      var low := pool[..|pool| - 1];
      forall i | 0 <= i < |low| ensures low[i].len == |TextOf(src, low[i].at)| { assert low[i] == pool[i]; }
      DataLength(src, low);
      OffsetsStay(low, pool, |low|);
    }
  }

  /** The bytes s stand at p in the data section. */
  ghost predicate StandsAt(data: seq<byte>, p: nat, s: seq<byte>) {
    p + |s| <= |data| && data[p..p + |s|] == s
  }

  lemma {:induction false} EntryStands(src: seq<byte>, pool: seq<Entry>, i: nat)
    requires i < |pool| && forall j :: 0 <= j < |pool| ==> pool[j].len == |TextOf(src, pool[j].at)|
    ensures StandsAt(DataBytes(src, pool), OffsetOf(pool, i), TextOf(src, pool[i].at) + [0])
    decreases |pool|
  {
    hide TextOf;
    var low := pool[..|pool| - 1];
    forall j | 0 <= j < |low| ensures low[j].len == |TextOf(src, low[j].at)| { assert low[j] == pool[j]; }
    DataLength(src, low);
    OffsetsStay(low, pool, |low|);
    if i < |low| {
      EntryStands(src, low, i);
      OffsetsStay(low, pool, i);
      assert low[i] == pool[i];
      StandsLonger(DataBytes(src, low), TextOf(src, pool[|low|].at) + [0], OffsetOf(pool, i),
          TextOf(src, pool[i].at) + [0]);
      assert DataBytes(src, pool) == DataBytes(src, low) + (TextOf(src, pool[|low|].at) + [0]);
    } else {
      assert DataBytes(src, pool) == DataBytes(src, low) + (TextOf(src, pool[i].at) + [0]);
    }
  }

  lemma {:induction false} StandsLonger(data: seq<byte>, more: seq<byte>, p: nat, s: seq<byte>)
    requires StandsAt(data, p, s)
    ensures StandsAt(data + more, p, s)
  {
    assert (data + more)[p..p + |s|] == data[p..p + |s|];
  }

  // ----- a whole source -----

  /** The pool after the literals at these places, in order. */
  function PoolOf(src: seq<byte>, places: seq<nat>): seq<Entry> {
    if places == [] then [] else Added(src, PoolOf(src, places[..|places| - 1]), places[|places| - 1]).0
  }

  /** What the k-th literal pushes: its data offset and its length. */
  function Pushed(src: seq<byte>, places: seq<nat>, k: nat): (nat, nat)
    requires k < |places|
  {
    var (pool, i) := Added(src, PoolOf(src, places[..k]), places[k]);
    (if i <= |pool| then OffsetOf(pool, i) else 0, |TextOf(src, places[k])|)
  }

  lemma {:induction false} PoolIsSound(src: seq<byte>, places: seq<nat>)
    ensures Sound(src, PoolOf(src, places))
  {
    hide Added, Sound, TextOf;
    if places != [] {
      PoolIsSound(src, places[..|places| - 1]);
      AddedIs(src, PoolOf(src, places[..|places| - 1]), places[|places| - 1]);
    } else {
      NothingIsSound(src);
    }
  }

  lemma {:induction false} NothingIsSound(src: seq<byte>)
    ensures Sound(src, [])
  {
  }

  lemma {:induction false} PoolGrows(src: seq<byte>, places: seq<nat>, k: nat)
    requires k <= |places|
    ensures PoolOf(src, places[..k]) <= PoolOf(src, places)
    decreases |places|
  {
    hide Added, TextOf, Sound;
    if k < |places| {
      var low := places[..|places| - 1];
      PoolGrows(src, low, k);
      assert low[..k] == places[..k];
      PoolIsSound(src, low);
      AddedIs(src, PoolOf(src, low), places[|places| - 1]);
    } else {
      assert places[..k] == places;
    }
  }

  /** The index in the final pool of the k-th literal. */
  lemma {:induction false} LiteralIndex(src: seq<byte>, places: seq<nat>, k: nat) returns (i: nat)
    requires k < |places|
    ensures i < |PoolOf(src, places)| && TextOf(src, PoolOf(src, places)[i].at) == TextOf(src, places[k])
    ensures Pushed(src, places, k) == (OffsetOf(PoolOf(src, places), i), |TextOf(src, places[k])|)
  {
    hide Added, TextOf, Sound;
    var before := PoolOf(src, places[..k]);
    PoolIsSound(src, places[..k]);
    AddedIs(src, before, places[k]);
    i := Added(src, before, places[k]).1;
    assert places[..k + 1][..k] == places[..k];
    assert PoolOf(src, places[..k + 1]) == Added(src, before, places[k]).0;
    PoolGrows(src, places, k + 1);
    OffsetsStay(Added(src, before, places[k]).0, PoolOf(src, places), i);
  }

  /** Each pushed offset and length select in the dumped data exactly the decoded characters of
      that literal, followed by a zero, whatever literals come after it. */
  lemma {:induction false} LiteralsResolve(src: seq<byte>, places: seq<nat>, k: nat)
    requires k < |places|
    ensures var (offset, len) := Pushed(src, places, k);
      len == |TextOf(src, places[k])|
          && StandsAt(DataBytes(src, PoolOf(src, places)), offset, TextOf(src, places[k]) + [0])
  {
    hide TextOf, StandsAt, PoolOf, Pushed, DataBytes;
    var i := LiteralIndex(src, places, k);
    PoolIsSound(src, places);
    EntryStands(src, PoolOf(src, places), i);
  }

  /** Two literals share storage if and only if their decoded contents are equal. */
  lemma {:induction false} SharedExactlyWhenEqual(src: seq<byte>, places: seq<nat>, j: nat, k: nat)
    requires j < |places| && k < |places|
    ensures Pushed(src, places, j).0 == Pushed(src, places, k).0 <==> TextOf(src, places[j]) == TextOf(src, places[k])
  {
    hide TextOf, PoolOf, Pushed;
    var a := LiteralIndex(src, places, j);
    var b := LiteralIndex(src, places, k);
    PoolIsSound(src, places);
    var pool := PoolOf(src, places);
    if a < b { OffsetsGrow(pool, a, b); } else if b < a { OffsetsGrow(pool, b, a); }
  }
}
