/** The header writer and reader in their own form: lengths summed in loops, bytes written through
    a pointer, cursors that advance over the image, tables that are filled entry by entry. */
module HeaderCode {
  import opened Common
  import opened NumCodec
  import opened LittleEndian
  import opened Writing
  import opened Header

  // ----- lengths -----

  method WordsLength(words: seq<seq<byte>>) returns (len: nat)
    ensures len == |WordBytes(words)|
  {
    len := 0;
    var i := 0;
    assert words[0..] == words;
    while i < |words|
      invariant 0 <= i <= |words| && len + |WordBytes(words[i..])| == |WordBytes(words)|
    {
      assert words[i..][1..] == words[i + 1..];
      len := len + |words[i]| + 1;
      i := i + 1;
    }
  }

  method CallbackInfoLength(callbacks: seq<Callback>) returns (len: nat)
    requires forall i :: 0 <= i < |callbacks| ==> IsInt32(callbacks[i].position)
    ensures len == |CallbackBytes(callbacks)|
  {
    hide Number, EncodedSize;
    len := 0;
    var i := 0;
    assert callbacks[0..] == callbacks;
    while i < |callbacks|
      invariant 0 <= i <= |callbacks| && len + |CallbackBytes(callbacks[i..])| == |CallbackBytes(callbacks)|
    {
      assert callbacks[i..][1..] == callbacks[i + 1..];
      NumberLength(callbacks[i].position);
      var size := EncodedSizeFromInt(callbacks[i].position);
      len := len + 1 + size;
      i := i + 1;
    }
  }

  /** The length of the whole image and the offset of the code in it (compile.c:823-863). */
  method BinLength(c: Contents, codeLen: nat) returns (codeOffset: nat, binLen: int)
    requires Writable(c)
    ensures codeOffset == |Written(c)| && binLen == Aligned(codeOffset + codeLen)
  {
    hide Number, EncodedSize, WordBytes, CallbackBytes, Written, Front, Aligned;
    var len := EncodedSizeFromInt(c.variables);
    var n := EncodedSizeFromInt(|c.words|);
    len := len + n;
    n := WordsLength(c.words);
    len := len + n;
    n := EncodedSizeFromInt(|c.data|);
    len := len + n + |c.data|;
    n := EncodedSizeFromInt(|c.callbacks|);
    len := len + n;
    n := CallbackInfoLength(c.callbacks);
    len := len + n;
    n := EncodedSizeFromInt(|c.literals|);
    len := len + n;
    FrontLength(c);
    WrittenLength(c);
    codeOffset := Aligned(len) + 4 * |c.literals|;
    binLen := Aligned(codeOffset + codeLen);
  }

  lemma {:induction false} FrontLength(c: Contents)
    ensures |Front(c)| == EncodedSize(c.variables) + EncodedSize(|c.words|) + |WordBytes(c.words)|
      + EncodedSize(|c.data|) + |c.data| + EncodedSize(|c.callbacks|) + |CallbackBytes(c.callbacks)|
      + EncodedSize(|c.literals|)
  {
    hide Number, EncodedSize, WordBytes, CallbackBytes;
    NumberLength(c.variables);
    NumberLength(|c.words|);
    NumberLength(|c.data|);
    NumberLength(|c.callbacks|);
    NumberLength(|c.literals|);
  }

  // ----- reading -----

  method NumDecode(image: seq<byte>, p: nat) returns (ok: bool, n: int, next: nat)
    ensures ReadNumber(image, p) == if ok then Some((n, next)) else None
  {
    ok, n, next := false, 0, 0;
    if p > |image| { return; }
    var src := image[p..];
    if Span(src).None? { return; }
    var used;
    n, used := DecodeAt(src);
    ok, next := true, p + used;
  }

  /** The name at p as strlen and strcmp see it. */
  method NameAt(image: seq<byte>, p: nat) returns (ok: bool, name: seq<byte>, next: nat)
    ensures ReadString(image, p) == if ok then Some((name, next)) else None
  {
    name, next := [], p;
    NoNameYet(ReadString(image, p));
    while next < |image| && image[next] != 0
      invariant p <= next && ReadString(image, p) == Prefixed(name, ReadString(image, next))
      decreases |image| - next
    {
      PrefixedNext(name, image, next);
      name := name + [image[next]];
      next := next + 1;
    }
    ok := next < |image|;
    if ok {
      assert name + [] == name;
      next := next + 1;
    }
  }

  function Prefixed(name: seq<byte>, r: Option<(seq<byte>, nat)>): Option<(seq<byte>, nat)> {
    match r
    case None => None
    case Some((s, next)) => Some((name + s, next))
  }

  lemma {:induction false} NoNameYet(r: Option<(seq<byte>, nat)>)
    ensures Prefixed([], r) == r
  {
    match r
    case None =>
    case Some((s, _)) => assert [] + s == s;
  }

  lemma {:induction false} PrefixedNext(name: seq<byte>, image: seq<byte>, p: nat)
    requires p < |image| && image[p] != 0
    ensures Prefixed(name, ReadString(image, p)) == Prefixed(name + [image[p]], ReadString(image, p + 1))
  {
    match ReadString(image, p + 1)
    case None =>
    case Some((s, _)) => assert name + ([image[p]] + s) == name + [image[p]] + s;
  }

  function Later(k: nat, r: Option<nat>): Option<nat> {
    match r
    case None => None
    case Some(i) => Some(k + i)
  }

  /** The search through the runtime tables, one after the other. */
  method FindEntry(arrays: seq<seq<seq<byte>>>, name: seq<byte>) returns (entry: Option<nat>)
    ensures entry == Lookup(Joined(arrays), name)
  {
    var i, k := 0, 0;
    assert arrays[0..] == arrays;
    while i < |arrays|
      invariant 0 <= i <= |arrays| && k >= 0
      invariant Lookup(Joined(arrays), name) == Later(k, Lookup(Joined(arrays[i..]), name))
    {
      assert arrays[i..][1..] == arrays[i + 1..];
      ghost var rest := Joined(arrays[i + 1..]);
      var j := 0;
      assert arrays[i][0..] == arrays[i];
      while j < |arrays[i]|
        invariant 0 <= j <= |arrays[i]| && k >= 0
        invariant Lookup(Joined(arrays), name) == Later(k, Lookup(arrays[i][j..] + rest, name))
      {
        if arrays[i][j] == name { return Some(k); }
        assert (arrays[i][j..] + rest)[1..] == arrays[i][j + 1..] + rest;
        j, k := j + 1, k + 1;
      }
      assert arrays[i][j..] + rest == rest;
      i := i + 1;
    }
    entry := None;
  }

  function Resumed(entries: seq<nat>, w: Words): Words {
    match w
    case Found(rest, next) => Found(entries + rest, next)
    case Missing(at) => w
    case Broken => w
  }

  lemma {:induction false} ResumedNext(entries: seq<nat>, image: seq<byte>, p: nat, n: int, table: seq<seq<byte>>,
      name: seq<byte>, next: nat, i: nat)
    requires n > 0 && ReadString(image, p) == Some((name, next)) && Lookup(table, name) == Some(i)
    ensures Resumed(entries, ResolveWords(image, p, n, table))
        == Resumed(entries + [i], ResolveWords(image, next, n - 1, table))
  {
    match ResolveWords(image, next, n - 1, table)
    case Found(rest, _) => assert entries + ([i] + rest) == entries + [i] + rest;
    case Missing(_) =>
    case Broken =>
  }

  method LinkWords(image: seq<byte>, p: nat, n: int, arrays: seq<seq<seq<byte>>>) returns (w: Words)
    ensures w == ResolveWords(image, p, n, Joined(arrays))
  {
    hide ReadString, Lookup, Joined;
    var at, entries: seq<nat> := p, [];
    var i := 0;
    ghost var table := Joined(arrays);
    NothingYet(ResolveWords(image, p, n, table));
    while i < n
      invariant 0 <= i && (i <= n || i == 0)
      invariant ResolveWords(image, p, n, table) == Resumed(entries, ResolveWords(image, at, n - i, table))
    {
      var ok, name, next := NameAt(image, at);
      if !ok { return Broken; }
      var entry := FindEntry(arrays, name);
      if entry.None? { return Missing(at); }
      ResumedNext(entries, image, at, n - i, table, name, next, entry.value);
      entries, at, i := entries + [entry.value], next, i + 1;
    }
    w := Found(entries, at);
    assert entries + [] == entries;
  }

  lemma {:induction false} NothingYet(w: Words)
    ensures Resumed([], w) == w
  {
    match w
    case Found(rest, _) => assert [] + rest == rest;
    case Missing(_) =>
    case Broken =>
  }

  function ResumedCallbacks(done: seq<Callback>, r: Option<(seq<Callback>, nat)>): Option<(seq<Callback>, nat)> {
    match r
    case None => None
    case Some((rest, end)) => Some((done + rest, end))
  }

  lemma {:induction false} CallbacksNext(done: seq<Callback>, image: seq<byte>, p: nat, n: int, position: int,
      next: nat)
    requires n > 0 && p < |image| && ReadNumber(image, p + 1) == Some((position, next))
    ensures ResumedCallbacks(done, ReadCallbacks(image, p, n))
         == ResumedCallbacks(done + [Callback(image[p], position)], ReadCallbacks(image, next, n - 1))
  {
    hide ReadNumber;
    match ReadCallbacks(image, next, n - 1)
    case None =>
    case Some((rest, _)) =>
      assert done + ([Callback(image[p], position)] + rest) == done + [Callback(image[p], position)] + rest;
  }

  method FillCallbacks(image: seq<byte>, p: nat, n: int) returns (ok: bool, callbacks: seq<Callback>, next: nat)
    ensures ReadCallbacks(image, p, n) == if ok then Some((callbacks, next)) else None
  {
    hide ReadNumber;
    ok, callbacks, next := true, [], p;
    var i := 0;
    NoCallbacksYet(ReadCallbacks(image, p, n));
    while i < n
      invariant 0 <= i && (i <= n || i == 0) && ok
      invariant ReadCallbacks(image, p, n) == ResumedCallbacks(callbacks, ReadCallbacks(image, next, n - i))
    {
      if next >= |image| { return false, callbacks, next; }
      var position, after;
      ok, position, after := NumDecode(image, next + 1);
      if !ok { return; }
      CallbacksNext(callbacks, image, next, n - i, position, after);
      callbacks, next, i := callbacks + [Callback(image[next], position)], after, i + 1;
    }
    assert callbacks + [] == callbacks;
  }

  lemma {:induction false} NoCallbacksYet(r: Option<(seq<Callback>, nat)>)
    ensures ResumedCallbacks([], r) == r
  {
    match r
    case None =>
    case Some((rest, _)) => assert [] + rest == rest;
  }

  /** The last loop: offsets in the code become addresses. */
  method LocateCallbacks(callbacks: seq<Callback>, programStart: int) returns (r: seq<Callback>)
    ensures r == Located(callbacks, programStart)
  {
    r := [];
    var i := 0;
    while i < |callbacks|
      invariant 0 <= i <= |callbacks| && |r| == i
      invariant forall k :: 0 <= k < i ==> r[k] == Callback(callbacks[k].info, programStart + callbacks[k].position)
    {
      r := r + [Callback(callbacks[i].info, programStart + callbacks[i].position)];
      i := i + 1;
    }
  }

  /** m4_unpack_binary_header. */
  method UnpackBinaryHeader(image: seq<byte>, e: Engine) returns (o: Outcome)
    ensures o == Unpack(image, e)
  {
    hide ReadNumber, ResolveWords, ReadCallbacks, Aligned, Joined, Located;
    var memory := Aligned(e.memoryStart);
    var ok, variables, p := NumDecode(image, 0);
    if !ok { return Malformed; }
    memory := memory + 4 * variables;
    if BytesRemaining(e.memoryStart, memory, e.memoryLen) < 0 { return Refused(OUT_OF_MEMORY); }

    var words;
    ok, words, p := NumDecode(image, p);
    if !ok { return Malformed; }
    if words != 0 && e.arrays == [] { return Refused(RUNTIME_WORD_MISSING); }
    if BytesRemaining(e.memoryStart, memory, e.memoryLen) < 4 * words { return Refused(OUT_OF_MEMORY); }
    var w := LinkWords(image, p, words, e.arrays);
    if w.Broken? { return Malformed; }
    if w.Missing? { return Refused(RUNTIME_WORD_MISSING); }
    memory := memory + 4 * |w.entries|;

    var dataLen, dataStart;
    ok, dataLen, dataStart := NumDecode(image, w.next);
    if !ok || dataLen < 0 { return Malformed; }

    var n;
    ok, n, p := NumDecode(image, dataStart + dataLen);
    if !ok { return Malformed; }
    if n > e.maxCallbacks { return Refused(TOO_MANY_CALLBACKS); }
    memory := Aligned(memory + n) + 4 * n;
    if BytesRemaining(e.memoryStart, memory, e.memoryLen) < 0 { return Refused(OUT_OF_MEMORY); }
    var callbacks;
    ok, callbacks, p := FillCallbacks(image, p, n);
    if !ok { return Malformed; }

    var literals;
    ok, literals, p := NumDecode(image, p);
    if !ok { return Malformed; }
    var start := Aligned(p);
    var located := LocateCallbacks(callbacks, start + 4 * literals);
    o := Unpacked(Tables(variables, w.entries, dataStart, located, start, start + 4 * literals, memory));
  }

  // ----- writing -----

  method DumpWords(words: seq<seq<byte>>, dst: array<byte>, p: nat, ghost was: seq<byte>, ghost at: nat,
      ghost done: seq<byte>)
    returns (end: nat)
    requires Filled(dst[..], was, at, done, p) && p + |WordBytes(words)| <= dst.Length
    modifies dst
    ensures Filled(dst[..], was, at, done + WordBytes(words), end)
  {
    hide Filled, Lowered;
    end := p;
    var i := 0;
    ghost var all := done;
    assert words[0..] == words;
    StartedAt(dst[..], was, at, done, p);
    while i < |words|
      invariant 0 <= i <= |words| && Filled(dst[..], was, at, all, end) && end + |WordBytes(words[i..])| <= dst.Length
      invariant all + WordBytes(words[i..]) == done + WordBytes(words)
    {
      assert words[i..][1..] == words[i + 1..];
      var name := Lowered(words[i]) + [0];
      Regroup(all, name, WordBytes(words[i + 1..]));
      StartedAt(dst[..], was, at, all, end);
      end := CpyAndInc(dst, end, name, was, at, all);
      StartedAt(dst[..], was, at, all + name, end);
      all := all + name;
      i := i + 1;
    }
    assert all + [] == all;
  }

  lemma {:induction false} StartedAt(dst: seq<byte>, was: seq<byte>, at: nat, done: seq<byte>, p: nat)
    requires Filled(dst, was, at, done, p)
    ensures p == at + |done| <= |dst|
  {
  }

  method DumpCallbacks(callbacks: seq<Callback>, dst: array<byte>, p: nat, ghost was: seq<byte>, ghost at: nat,
      ghost done: seq<byte>)
    returns (end: nat)
    requires forall i :: 0 <= i < |callbacks| ==> IsInt32(callbacks[i].position)
    requires Filled(dst[..], was, at, done, p) && p + |CallbackBytes(callbacks)| <= dst.Length
    modifies dst
    ensures Filled(dst[..], was, at, done + CallbackBytes(callbacks), end)
  {
    hide Filled, Number;
    end := p;
    var i := 0;
    ghost var all := done;
    assert callbacks[0..] == callbacks;
    while i < |callbacks|
      invariant 0 <= i <= |callbacks| && Filled(dst[..], was, at, all, end)
          && end + |CallbackBytes(callbacks[i..])| <= dst.Length
      invariant all + CallbackBytes(callbacks[i..]) == done + CallbackBytes(callbacks)
    {
      assert callbacks[i..][1..] == callbacks[i + 1..];
      ghost var first, rest := [callbacks[i].info] + Number(callbacks[i].position), CallbackBytes(callbacks[i + 1..]);
      Regroup(all, first, rest);
      Regroup(all, [callbacks[i].info], Number(callbacks[i].position));
      StartedAt(dst[..], was, at, all, end);
      end := CpyAndInc(dst, end, [callbacks[i].info], was, at, all);
      StartedAt(dst[..], was, at, all + [callbacks[i].info], end);
      end := NumEncode(dst, end, callbacks[i].position, was, at, all + [callbacks[i].info]);
      StartedAt(dst[..], was, at, all + first, end);
      all := all + first;
      i := i + 1;
    }
    assert all + [] == all;
  }

  method DumpLiterals(literals: seq<int>, dst: array<byte>, p: nat, ghost was: seq<byte>, ghost at: nat,
      ghost done: seq<byte>)
    returns (end: nat)
    requires Filled(dst[..], was, at, done, p) && p + |LiteralBytes(literals)| <= dst.Length
    modifies dst
    ensures Filled(dst[..], was, at, done + LiteralBytes(literals), end)
  {
    hide Filled, Le32;
    end := p;
    var i := 0;
    ghost var all := done;
    assert literals[0..] == literals;
    while i < |literals|
      invariant 0 <= i <= |literals| && Filled(dst[..], was, at, all, end)
          && end + |LiteralBytes(literals[i..])| <= dst.Length
      invariant all + LiteralBytes(literals[i..]) == done + LiteralBytes(literals)
    {
      assert literals[i..][1..] == literals[i + 1..];
      FourBytes(literals[i]);
      Regroup(all, Le32(literals[i]), LiteralBytes(literals[i + 1..]));
      StartedAt(dst[..], was, at, all, end);
      end := SerLe32AndInc(dst, end, literals[i], was, at, all);
      StartedAt(dst[..], was, at, all + Le32(literals[i]), end);
      all := all + Le32(literals[i]);
      i := i + 1;
    }
    assert all + [] == all;
  }

  lemma {:induction false} FourBytes(x: int)
    ensures |Le32(x)| == 4
  {
    hide LowBytes;
    LowBytesLength(x % TWO_32, 4);
  }

  /** The zeros up to the next multiple of four. */
  method Pad(dst: array<byte>, p: nat, n: nat, ghost was: seq<byte>, ghost at: nat, ghost done: seq<byte>)
      returns (end: nat)
    requires at % 4 == 0 && n == Aligned(p) - p
    requires Filled(dst[..], was, at, done, p) && p + n <= dst.Length
    modifies dst
    ensures Filled(dst[..], was, at, done + Zeros(n), end) && end % 4 == 0
  {
    hide Filled;
    end := p;
    ghost var all, i := done, 0;
    assert done + Zeros(0) == done;
    AlignedUp(p);
    while end % 4 != 0
      invariant 0 <= i <= n && end == p + i && all == done + Zeros(i) && Filled(dst[..], was, at, all, end)
      decreases n - i
    {
      Regroup(done, Zeros(i), [0]);
      StartedAt(dst[..], was, at, all, end);
      end := CpyAndInc(dst, end, [0], was, at, all);
      StartedAt(dst[..], was, at, all + [0], end);
      all := all + [0];
      i := i + 1;
    }
  }

  method DumpFront(c: Contents, dst: array<byte>, ghost was: seq<byte>) returns (end: nat)
    requires Writable(c) && dst[..] == was && |Front(c)| <= dst.Length
    modifies dst
    ensures Filled(dst[..], was, 0, Front(c), end)
  {
    hide Filled, Number, WordBytes, CallbackBytes, NoZero;
    ghost var a, b, w := Number(c.variables), Number(|c.words|), WordBytes(c.words);
    ghost var d, n, k := Number(|c.data|), Number(|c.callbacks|), CallbackBytes(c.callbacks);
    ghost var l := Number(|c.literals|);
    FilledNothing(was);
    end := NumEncode(dst, 0, c.variables, was, 0, []);
    assert [] + a == a;
    StartedAt(dst[..], was, 0, a, end);
    end := NumEncode(dst, end, |c.words|, was, 0, a);
    StartedAt(dst[..], was, 0, a + b, end);
    end := DumpWords(c.words, dst, end, was, 0, a + b);
    StartedAt(dst[..], was, 0, a + b + w, end);
    end := NumEncode(dst, end, |c.data|, was, 0, a + b + w);
    StartedAt(dst[..], was, 0, a + b + w + d, end);
    end := CpyAndInc(dst, end, c.data, was, 0, a + b + w + d);
    StartedAt(dst[..], was, 0, a + b + w + d + c.data, end);
    end := NumEncode(dst, end, |c.callbacks|, was, 0, a + b + w + d + c.data);
    StartedAt(dst[..], was, 0, a + b + w + d + c.data + n, end);
    end := DumpCallbacks(c.callbacks, dst, end, was, 0, a + b + w + d + c.data + n);
    StartedAt(dst[..], was, 0, a + b + w + d + c.data + n + k, end);
    end := NumEncode(dst, end, |c.literals|, was, 0, a + b + w + d + c.data + n + k);
    FrontGrouped(a, b, w, d, c.data, n, k, l);
  }

  lemma {:induction false} FrontGrouped(a: seq<byte>, b: seq<byte>, w: seq<byte>, d: seq<byte>, data: seq<byte>,
      n: seq<byte>, k: seq<byte>, l: seq<byte>)
    ensures a + b + w + d + data + n + k + l == a + (b + (w + (d + (data + (n + (k + l))))))
  {
    Regroup(a + b + w + d + data + n, k, l);
    Regroup(a + b + w + d + data, n, k + l);
    Regroup(a + b + w + d, data, n + (k + l));
    Regroup(a + b + w, d, data + (n + (k + l)));
    Regroup(a + b, w, d + (data + (n + (k + l))));
    Regroup(a, b, w + (d + (data + (n + (k + l)))));
  }

  /** The header part of the dump: everything before the code, in a buffer that is aligned. */
  method DumpHeader(c: Contents, dst: array<byte>) returns (end: nat)
    requires Writable(c) && |Written(c)| <= dst.Length
    modifies dst
    ensures end == |Written(c)| && dst[..] == Patched(old(dst[..]), 0, Written(c))
  {
    hide Front, LiteralBytes, Zeros, Aligned, WrittenAt, Patched, NoZero;
    ghost var was := dst[..];
    LiteralBytesLength(c.literals);
    WrittenLength(c);
    end := DumpFront(c, dst, was);
    var n := Aligned(end) - end;
    AlignedUp(end);
    end := Pad(dst, end, n, was, 0, Front(c));
    end := DumpLiterals(c.literals, dst, end, was, 0, Front(c) + Zeros(n));
    WrittenIsPatched(dst[..], was, 0, Written(c));
  }
}
