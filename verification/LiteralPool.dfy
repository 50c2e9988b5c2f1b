/** The string-literal code in its own form: the character iterator, the comparison of two escaped
    strings, the growing table of literals, and the dump of the data section. */
module LiteralPool {
  import opened Common
  import opened NumCodec
  import opened StringLiterals
  import opened Writing

  /** escaped_string_iter_char. */
  method EscapedStringIterChar(src: seq<byte>, p: nat) returns (r: Iter)
    ensures r == IterChar(src, p)
  {
    var cur := p;
    while true
      invariant cur >= p && IterChar(src, p) == IterChar(src, cur)
      decreases |src| - cur
    {
      if cur >= |src| { return EndedEarly; }
      var c := src[cur];
      cur := cur + 1;
      if c == QUOTE { return EndedOk(cur); }
      if c == BACKSLASH {
        if cur >= |src| { return EndedEarly; }
        var e := src[cur];
        cur := cur + 1;
        if e == NEWLINE { continue; }
        match Escape(e)
        case Some(x) => c := x;
        case None => cur := cur - 1;
      }
      return Char(c, cur);
    }
  }

  /** next_escaped_string: where the literal at p ends, and how many characters it has. */
  method NextEscapedString(src: seq<byte>, p: nat) returns (ok: bool, len: nat, next: nat)
    ensures ok == Unescape(src, p).Some?
    ensures ok ==> Unescape(src, p) == Some((TextOf(src, p), next)) && len == |TextOf(src, p)|
  {
    hide IterChar;
    len, next := 0, p;
    ghost var done: seq<byte> := [];
    NothingRead(src, p);
    while true
      invariant len == |done| && Unescape(src, p) == After(done, Unescape(src, next))
      decreases |src| - next
    {
      IterMoves(src, next);
      AfterNext(done, src, next);
      var r := EscapedStringIterChar(src, next);
      match r
      case EndedEarly => return false, len, next;
      case EndedOk(end) =>
        assert done + [] == done;
        return true, len, end;
      case Char(c, end) =>
        done := done + [c];
        len, next := len + 1, end;
    }
  }

  ghost function After(done: seq<byte>, r: Option<(seq<byte>, nat)>): Option<(seq<byte>, nat)> {
    match r
    case None => None
    case Some((s, end)) => Some((done + s, end))
  }

  lemma {:induction false} NothingRead(src: seq<byte>, p: nat)
    ensures Unescape(src, p) == After([], Unescape(src, p))
  {
    match Unescape(src, p)
    case None =>
    case Some((s, _)) => assert [] + s == s;
  }

  lemma {:induction false} AfterNext(done: seq<byte>, src: seq<byte>, p: nat)
    ensures IterChar(src, p).Char? ==>
      After(done, Unescape(src, p)) == After(done + [IterChar(src, p).c], Unescape(src, IterChar(src, p).next))
  {
    hide IterChar;
    match IterChar(src, p)
    case EndedEarly =>
    case EndedOk(_) =>
    case Char(c, next) =>
      if Unescape(src, next).Some? {
        var s := Unescape(src, next).value.0;
        assert done + ([c] + s) == done + [c] + s;
      }
  }

  /** equal_escaped_string, for two literals that end. */
  method EqualEscapedString(src: seq<byte>, p: nat, q: nat) returns (equal: bool)
    requires Unescape(src, p).Some? && Unescape(src, q).Some?
    ensures equal == (TextOf(src, p) == TextOf(src, q))
  {
    hide IterChar;
    var s1, s2 := p, q;
    while true
      invariant Unescape(src, s1).Some? && Unescape(src, s2).Some?
      invariant TextOf(src, p) == TextOf(src, q) <==> TextOf(src, s1) == TextOf(src, s2)
      decreases |src| - s1
    {
      IterMoves(src, s1);
      OneCharacter(src, s1);
      OneCharacter(src, s2);
      var r1 := EscapedStringIterChar(src, s1);
      var r2 := EscapedStringIterChar(src, s2);
      if r1.Char? && r2.Char? {
        if r1.c != r2.c {
          assert TextOf(src, s1)[0] != TextOf(src, s2)[0];
          return false;
        }
        SameTail(r1.c, TextOf(src, r1.next), TextOf(src, r2.next));
        s1, s2 := r1.next, r2.next;
      } else {
        assert r1.Char? ==> |TextOf(src, s1)| > 0;
        assert r2.Char? ==> |TextOf(src, s2)| > 0;
        return r1.EndedOk? && r2.EndedOk?;
      }
    }
  }

  lemma {:induction false} OneCharacter(src: seq<byte>, p: nat)
    requires Unescape(src, p).Some?
    ensures match IterChar(src, p)
      case EndedEarly => false
      case EndedOk(_) => TextOf(src, p) == []
      case Char(c, next) => Unescape(src, next).Some? && TextOf(src, p) == [c] + TextOf(src, next)
  {
    hide IterChar;
  }

  lemma {:induction false} SameTail(c: byte, s: seq<byte>, t: seq<byte>)
    ensures [c] + s == [c] + t <==> s == t
  {
    assert ([c] + s)[1..] == s && ([c] + t)[1..] == t;
  }

  /** The table of literals of one compilation. */
  class Pool {
    const src: seq<byte>
    var entries: seq<Entry>

    ghost predicate Valid()
      reads this
    {
      Sound(src, entries) && forall i :: 0 <= i < |entries| ==> Unescape(src, entries[i].at).Some?
    }

    constructor (src: seq<byte>)
      ensures Valid() && this.src == src && entries == []
    {
      this.src := src;
      entries := [];
    }

    /** find_nstring_escaped. */
    method FindEscaped(p: nat, len: nat) returns (r: Option<nat>)
      requires Valid() && Unescape(src, p).Some? && len == |TextOf(src, p)|
      ensures r == Find(src, entries, TextOf(src, p))
    {
      hide Unescape, TextOf;
      var i := 0;
      assert entries[0..] == entries;
      while i < |entries|
        invariant 0 <= i <= |entries|
        invariant Find(src, entries, TextOf(src, p)) == Later(i, Find(src, entries[i..], TextOf(src, p)))
      {
        assert entries[i..][1..] == entries[i + 1..];
        if entries[i].len == len {
          var equal := EqualEscapedString(src, entries[i].at, p);
          if equal { return Some(i); }
        }
        i := i + 1;
      }
      r := None;
    }

    /** A literal met in the source: its data offset and length, as they are pushed. */
    method Add(p: nat) returns (ok: bool, offset: nat, len: nat, next: nat)
      requires Valid()
      modifies this
      ensures Valid() && ok == Unescape(src, p).Some?
      ensures !ok ==> entries == old(entries)
      ensures ok ==>
        var (pool, i) := Added(src, old(entries), p);
        entries == pool && i <= |pool| && offset == OffsetOf(pool, i) && len == |TextOf(src, p)|
    {
      hide Unescape, TextOf, Sound;
      offset := 0;
      ok, len, next := NextEscapedString(src, p);
      if !ok { return; }
      AddedIs(src, entries, p);
      var found := FindEscaped(p, len);
      var dataI := |entries|;
      if found.Some? { dataI := found.value; } else { entries := entries + [Entry(p, len)]; }
      var i := 0;
      while i < dataI
        invariant 0 <= i <= dataI <= |entries| && offset == OffsetOf(entries, i)
      {
        offset := offset + entries[i].len + 1;
        i := i + 1;
      }
    }
  }

  function Later(k: nat, r: Option<nat>): Option<nat> {
    match r
    case None => None
    case Some(i) => Some(k + i)
  }

  // ----- the data section -----

  /** dump_escaped_string. */
  method DumpEscapedString(src: seq<byte>, p: nat, dst: array<byte>, at: nat, ghost was: seq<byte>, ghost start: nat,
      ghost done: seq<byte>)
    returns (end: nat)
    requires Unescape(src, p).Some?
    requires Filled(dst[..], was, start, done, at) && at + |TextOf(src, p)| <= dst.Length
    modifies dst
    ensures Filled(dst[..], was, start, done + TextOf(src, p), end)
  {
    hide IterChar, WrittenAt;
    end := at;
    var cur := p;
    ghost var all := done;
    while true
      invariant Unescape(src, cur).Some? && Filled(dst[..], was, start, all, end)
      invariant all + TextOf(src, cur) == done + TextOf(src, p) && end + |TextOf(src, cur)| <= dst.Length
      decreases |src| - cur
    {
      IterMoves(src, cur);
      OneCharacter(src, cur);
      var r := EscapedStringIterChar(src, cur);
      if !r.Char? {
        assert all + [] == all;
        return;
      }
      Regroup(all, [r.c], TextOf(src, r.next));
      PutByte(dst, end, r.c, was, start, all);
      all := all + [r.c];
      end, cur := end + 1, r.next;
    }
  }

  /** The loop over the literals (compile.c:885-891). */
  method DumpData(src: seq<byte>, pool: seq<Entry>, dst: array<byte>, at: nat, ghost was: seq<byte>,
      ghost start: nat, ghost done: seq<byte>)
    returns (end: nat)
    requires forall i :: 0 <= i < |pool| ==> Unescape(src, pool[i].at).Some?
    requires Filled(dst[..], was, start, done, at) && at + |DataBytes(src, pool)| <= dst.Length
    modifies dst
    ensures Filled(dst[..], was, start, done + DataBytes(src, pool), end)
  {
    hide Unescape, TextOf, WrittenAt;
    end := at;
    var i := 0;
    assert done + [] == done;
    while i < |pool|
      invariant 0 <= i <= |pool| && Filled(dst[..], was, start, done + DataBytes(src, pool[..i]), end)
    {
      var p := pool[i].at;
      assert pool[..i + 1][..i] == pool[..i];
      ghost var d, text := DataBytes(src, pool[..i]), TextOf(src, p);
      PrefixFits(src, pool, i + 1);
      Regroup(done, d, text);
      Regroup(done, d + text, [0]);
      end := DumpEscapedString(src, p, dst, end, was, start, done + d);
      PutByte(dst, end, 0, was, start, done + d + text);
      end := end + 1;
      i := i + 1;
    }
    assert pool[..i] == pool;
  }

  lemma {:induction false} PrefixFits(src: seq<byte>, pool: seq<Entry>, i: nat)
    requires i <= |pool|
    ensures |DataBytes(src, pool[..i])| <= |DataBytes(src, pool)|
    decreases |pool|
  {
    hide TextOf;
    if i < |pool| {
      var low := pool[..|pool| - 1];
      assert low[..i] == pool[..i];
      PrefixFits(src, low, i);
    } else {
      assert pool[..i] == pool;
    }
  }
}
