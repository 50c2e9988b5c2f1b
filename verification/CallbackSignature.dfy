/** The signature of a word that C may call: counted in its stack comment, packed in a byte of the
    fragment, checked by `c'`, packed again in the header, and taken apart by the engine. */
module CallbackSignature {
  import opened FrontEnd
  import opened NumCodec
  import opened Header

  // ----- the stack comment -----

  /** What a comment counts, and the place of the word after it. */
  datatype Comment = Comment(params: nat, results: nat, next: nat)

  /** The comment from word `at` on: names before `--` are parameters, names after it results, and
      it ends with the first word that ends with `)`, which counts unless it is `)` alone. */
  function ReadComment(words: seq<string>, at: nat, params: nat, results: nat, divided: bool): Result<Comment>
    requires at <= |words| && forall i :: 0 <= i < |words| ==> words[i] != ""
    decreases |words| - at
  {
    if at == |words| then Err(EARLY_END_OF_SOURCE_ERROR)
    else
      var w := words[at];
      var p := params + if w != "--" && w != ")" && !divided then 1 else 0;
      var r := results + if w != "--" && w != ")" && divided then 1 else 0;
      if w[|w| - 1] == ')' then Ok(Comment(p, r, at + 1))
      else ReadComment(words, at + 1, p, r, divided || w == "--")
  }

  /** The loop behind `(` in a definition (compile.c:555-570). */
  method ScanComment(words: seq<string>, start: nat) returns (c: Result<Comment>)
    requires start <= |words| && forall i :: 0 <= i < |words| ==> words[i] != ""
    ensures c == ReadComment(words, start, 0, 0, false)
  {
    var at, paramCount, returnCount, dividerFound := start, 0, 0, false;
    while true
      invariant start <= at <= |words| && 0 <= paramCount && 0 <= returnCount
      invariant ReadComment(words, start, 0, 0, false) == ReadComment(words, at, paramCount, returnCount, dividerFound)
      decreases |words| - at
    {
      if at == |words| { return Err(EARLY_END_OF_SOURCE_ERROR); }
      var word := words[at];
      at := at + 1;
      if word == "--" {
        dividerFound := true;
      } else if |word| > 1 || word[0] != ')' {
        if !dividerFound { paramCount := paramCount + 1; } else { returnCount := returnCount + 1; }
      }
      if word[|word| - 1] == ')' { return Ok(Comment(paramCount, returnCount, at)); }
    }
  }

  predicate IsName(w: string) {
    w != "" && w != "--" && w[|w| - 1] != ')'
  }

  lemma {:induction false} NamesCount(words: seq<string>, at: nat, n: nat, params: nat, results: nat, divided: bool)
    requires at + n <= |words| && forall i :: 0 <= i < |words| ==> words[i] != ""
    requires forall i :: at <= i < at + n ==> IsName(words[i])
    ensures ReadComment(words, at, params, results, divided)
        == ReadComment(words, at + n, if divided then params else params + n, if divided then results + n else results,
            divided)
    decreases n
  {
    if n > 0 {
      NamesCount(words, at + 1, n - 1, if divided then params else params + 1, if divided then results + 1 else results,
          divided);
    }
  }

  /** A comment `( p1 .. pm -- r1 .. rn )` counts m parameters and n results. */
  lemma {:induction false} CommentCounts(words: seq<string>, at: nat, params: seq<string>, results: seq<string>)
    requires at + |params| + |results| + 2 <= |words| && forall i :: 0 <= i < |words| ==> words[i] != ""
    requires forall i :: 0 <= i < |params| ==> IsName(params[i])
    requires forall i :: 0 <= i < |results| ==> IsName(results[i])
    requires words[at..at + |params| + |results| + 2] == params + ["--"] + results + [")"]
    ensures ReadComment(words, at, 0, 0, false)
        == Ok(Comment(|params|, |results|, at + |params| + |results| + 2))
  {
    hide ReadComment, IsName;
    var text := params + ["--"] + results + [")"];
    forall i | 0 <= i < |text| ensures words[at + i] == text[i] {
      assert words[at..at + |text|][i] == words[at + i];
    }
    forall i | at <= i < at + |params| ensures IsName(words[i]) {
      assert words[at + (i - at)] == params[i - at];
    }
    var second := at + |params| + 1;
    forall i | second <= i < second + |results| ensures IsName(words[i]) {
      assert words[at + (i - at)] == results[i - second];
    }
    NamesCount(words, at, |params|, 0, 0, false);
    assert words[at + |params|] == "--";
    DividerDivides(words, at + |params|, |params|, 0);
    NamesCount(words, second, |results|, |params|, 0, true);
    assert words[at + (|params| + |results| + 1)] == ")";
    BracketEnds(words, second + |results|, |params|, |results|, true);
  }

  lemma {:induction false} DividerDivides(words: seq<string>, at: nat, params: nat, results: nat)
    requires at < |words| && words[at] == "--" && forall i :: 0 <= i < |words| ==> words[i] != ""
    ensures ReadComment(words, at, params, results, false) == ReadComment(words, at + 1, params, results, true)
  {
  }

  lemma {:induction false} BracketEnds(words: seq<string>, at: nat, params: nat, results: nat, divided: bool)
    requires at < |words| && words[at] == ")" && forall i :: 0 <= i < |words| ==> words[i] != ""
    ensures ReadComment(words, at, params, results, divided) == Ok(Comment(params, results, at + 1))
  {
  }

  // ----- any words at all -----

  predicate Closes(w: string)
    requires w != ""
  {
    w[|w| - 1] == ')'
  }

  /** How many words from lo to hi are neither `--` nor `)`. */
  function Named(words: seq<string>, lo: nat, hi: nat): nat
    requires hi <= |words|
    decreases hi - lo
  {
    if lo >= hi then 0 else (if words[lo] != "--" && words[lo] != ")" then 1 else 0) + Named(words, lo + 1, hi)
  }

  lemma {:induction false} ReadResults(words: seq<string>, at: nat, params: nat, results: nat) returns (e: nat)
    requires at <= |words| && forall i :: 0 <= i < |words| ==> words[i] != ""
    ensures at <= e <= |words| && (e < |words| ==> Closes(words[e])) && forall i :: at <= i < e ==> !Closes(words[i])
    ensures ReadComment(words, at, params, results, true)
        == if e == |words| then Err(EARLY_END_OF_SOURCE_ERROR)
           else Ok(Comment(params, results + Named(words, at, e + 1), e + 1))
    decreases |words| - at
  {
    e := at;
    if at < |words| {
      var more := if words[at] != "--" && words[at] != ")" then 1 else 0;
      if !Closes(words[at]) { e := ReadResults(words, at + 1, params, results + more); }
    }
  }

  lemma {:induction false} ReadParameters(words: seq<string>, at: nat, params: nat) returns (e: nat, d: nat)
    requires at <= |words| && forall i :: 0 <= i < |words| ==> words[i] != ""
    ensures at <= e <= |words| && (e < |words| ==> Closes(words[e])) && forall i :: at <= i < e ==> !Closes(words[i])
    ensures at <= d <= |words| && d <= e + 1 && (d <= e < |words| ==> words[d] == "--")
    ensures forall i :: at <= i < d ==> words[i] != "--"
    ensures ReadComment(words, at, params, 0, false)
        == if e == |words| then Err(EARLY_END_OF_SOURCE_ERROR)
           else Ok(Comment(params + Named(words, at, d), Named(words, d, e + 1), e + 1))
    decreases |words| - at
  {
    e, d := at, at;
    if at < |words| {
      if words[at] == "--" {
        e := ReadResults(words, at + 1, params, 0);
      } else if Closes(words[at]) {
        d := at + 1;
      } else {
        e, d := ReadParameters(words, at + 1, params + 1);
      }
    }
  }

  /** In any words a comment goes on to the first that ends with `)`, and is refused when there is none;
      it counts as parameters the names before the first `--` and as results the names behind it, the
      last one also when the `)` is glued to it. */
  lemma {:induction false} CommentExactly(words: seq<string>, at: nat) returns (e: nat, d: nat)
    requires at <= |words| && forall i :: 0 <= i < |words| ==> words[i] != ""
    ensures at <= e <= |words| && (e < |words| ==> Closes(words[e])) && forall i :: at <= i < e ==> !Closes(words[i])
    ensures at <= d <= |words| && d <= e + 1 && (d <= e < |words| ==> words[d] == "--")
    ensures forall i :: at <= i < d ==> words[i] != "--"
    ensures ReadComment(words, at, 0, 0, false)
        == if e == |words| then Err(EARLY_END_OF_SOURCE_ERROR)
           else Ok(Comment(Named(words, at, d), Named(words, d, e + 1), e + 1))
  {
    hide ReadComment, Named, Closes;
    e, d := ReadParameters(words, at, 0);
  }

  // ----- its packing -----

  function AtMostOf(most: nat, n: nat): nat {
    if n > most then most else n
  }

  /** ext_param (compile.c:571-576): bit 7 says that there is a comment, bits 5 and 6 hold the
      results, bits 0 to 4 the parameters, both cut off at their largest value. */
  function ExtParam(params: nat, results: nat): nat {
    (4 + AtMostOf(3, results)) * 32 + AtMostOf(31, params)
  }

  /** The check of `c'` (compile.c:741-746); 0 stands for a word without a comment. */
  predicate Accepts(ext: nat) {
    ext != 0 && 1 <= ext % 32 <= 8 && ext / 32 % 4 <= 1
  }

  /** The byte in the header (compile.c:897-901). */
  function Info(ext: nat): byte {
    ((ext % 32 * 2 + if ext / 32 % 4 != 0 then 1 else 0) % 256) as byte
  }

  /** What callback_handle makes of it (vm_engine.c:67-68, 80). */
  function Parameters(info: byte): nat {
    (info / 2) as nat
  }

  predicate HasResult(info: byte) {
    info % 2 == 1
  }

  /** The signature is one byte of the fragment, and it is not taken for a missing comment. */
  lemma {:induction false} ExtParamIsByte(params: nat, results: nat)
    ensures 0 < ExtParam(params, results) < 256
    ensures ExtParam(params, results) % 32 == AtMostOf(31, params)
        && ExtParam(params, results) / 32 % 4 == AtMostOf(3, results)
  {
    var r, p := AtMostOf(3, results), AtMostOf(31, params);
    assert ExtParam(params, results) == (4 + r) * 32 + p;
    assert ExtParam(params, results) / 32 == 4 + r;
  }

  /** `c'` accepts a commented word if and only if it has one to eight parameters and at most one
      result: cutting the counts off hides nothing. */
  lemma {:induction false} AcceptsExactly(params: nat, results: nat)
    ensures Accepts(ExtParam(params, results)) <==> 1 <= params <= 8 && results <= 1
  {
    hide ExtParam;
    ExtParamIsByte(params, results);
  }

  /** For every signature that `c'` accepts, the engine finds the number of parameters and whether
      there is a result. */
  lemma {:induction false} SignatureComesBack(params: nat, results: nat)
    requires Accepts(ExtParam(params, results))
    ensures Parameters(Info(ExtParam(params, results))) == params
    ensures HasResult(Info(ExtParam(params, results))) <==> results == 1
  {
    hide ExtParam;
    AcceptsExactly(params, results);
    ExtParamIsByte(params, results);
  }

  /** From the comment in the source: `c'` accepts a word with it if and only if it names one to
      eight parameters and at most one result, and then the engine finds as many. */
  lemma {:induction false} CommentComesBack(words: seq<string>, at: nat, params: seq<string>, results: seq<string>)
    requires at + |params| + |results| + 2 <= |words| && forall i :: 0 <= i < |words| ==> words[i] != ""
    requires forall i :: 0 <= i < |params| ==> IsName(params[i])
    requires forall i :: 0 <= i < |results| ==> IsName(results[i])
    requires words[at..at + |params| + |results| + 2] == params + ["--"] + results + [")"]
    ensures ReadComment(words, at, 0, 0, false).Ok?
    ensures var c := ReadComment(words, at, 0, 0, false).value;
      && (Accepts(ExtParam(c.params, c.results)) <==> 1 <= |params| <= 8 && |results| <= 1)
      && (Accepts(ExtParam(c.params, c.results)) ==>
           Parameters(Info(ExtParam(c.params, c.results))) == |params|
           && (HasResult(Info(ExtParam(c.params, c.results))) <==> |results| == 1))
  {
    hide ReadComment, IsName, ExtParam, Accepts, Info, Parameters, HasResult;
    CommentCounts(words, at, params, results);
    AcceptsExactly(|params|, |results|);
    if Accepts(ExtParam(|params|, |results|)) { SignatureComesBack(|params|, |results|); }
  }

  /** Through the whole header: callback i of the unpacked tables has the signature that was
      written, and the address of its word. */
  lemma {:induction false} CallbackRoundTrip(image: seq<byte>, c: Contents, e: Engine, i: nat, params: nat,
      results: nat)
    requires Writable(c) && Has(image, 0, Written(c)) && Unpack(image, e).Unpacked? && i < |c.callbacks|
    requires Accepts(ExtParam(params, results)) && c.callbacks[i].info == Info(ExtParam(params, results))
    ensures var t := Unpack(image, e).t;
      && |t.callbacks| == |c.callbacks| && t.callbacks[i].position == t.programStart + c.callbacks[i].position
      && Parameters(t.callbacks[i].info) == params && (HasResult(t.callbacks[i].info) <==> results == 1)
  {
    hide Writable, Has, Written, Unpack, ExtParam, Info, Parameters, HasResult, Accepts;
    HeaderRoundTrip(image, c, e);
    SignatureComesBack(params, results);
  }
}
