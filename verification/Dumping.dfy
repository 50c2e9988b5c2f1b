/** The code section as the concatenation of what a backend writes for each place. */
module Dumping {
  import opened NumCodec
  import opened Relaxation

  /** The bytes of the places before n. */
  function Joined(chunk: nat -> seq<byte>, n: nat): seq<byte> {
    if n == 0 then [] else Joined(chunk, n - 1) + chunk(n - 1)
  }

  /** Each place writes as many bytes as the backend reserved for it. */
  ghost predicate Exact(b: Backend, r: seq<nat>, chunk: nat -> seq<byte>) {
    forall k :: 0 <= k < |r| ==> |chunk(k)| == b.size(k, r[k])
  }

  lemma {:induction false} JoinedLength(b: Backend, r: seq<nat>, chunk: nat -> seq<byte>, n: nat)
    requires Exact(b, r, chunk) && n <= |r|
    ensures |Joined(chunk, n)| == Position(b, r, n)
  {
    if n > 0 { JoinedLength(b, r, chunk, n - 1); }
  }

  /** What place k writes stands at its position. */
  lemma {:induction false} ChunkStandsIn(b: Backend, r: seq<nat>, chunk: nat -> seq<byte>, n: nat, k: nat)
    requires Exact(b, r, chunk) && k < n <= |r|
    ensures Position(b, r, k + 1) == Position(b, r, k) + |chunk(k)| && Position(b, r, k + 1) <= |Joined(chunk, n)|
    ensures Joined(chunk, n)[Position(b, r, k)..Position(b, r, k + 1)] == chunk(k)
  {
    JoinedLength(b, r, chunk, n - 1);
    if k < n - 1 { ChunkStandsIn(b, r, chunk, n - 1, k); }
  }
}
