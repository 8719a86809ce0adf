/** The chunk size uploadChunks derives from the command-length budget
    (winrmcp/cp.go:73-89) and the per-session chunk budget. */
module Chunking {
  import opened Base64

  /** The command-length budget the chunk size is computed against. */
  const CommandLimit: int := 8000

  /** Go's integer division, which truncates toward zero: q * b is the
      multiple of b nearest to a on the side of zero. */
  function GoDiv(a: int, b: int): (q: int)
    requires b > 0
    ensures a >= 0 ==> 0 <= q && q * b <= a < q * b + b
    ensures a < 0 ==> q <= 0 && q * b - b < a <= q * b
  {
    if a >= 0 then
      DivBounds(a, b);
      a / b
    else
      DivBounds(-a, b);
      NegateTimes((-a) / b, b);
      -((-a) / b)
  }

  /** Dafny's division of a natural number leaves a remainder in [0, b). */
  lemma DivBounds(n: nat, b: int)
    requires b > 0
    ensures 0 <= n / b && (n / b) * b <= n < (n / b) * b + b
  {
    var q := n / b;
    var r := n % b;
    assert n == q * b + r && 0 <= r < b;
  }

  lemma NegateTimes(d: int, b: int)
    ensures (-d) * b == -(d * b)
  {
  }

  /** Three bytes for every four base64 characters that fit in what the
      budget leaves after the path, the quotient truncated as Go does. */
  function ChunkSize(pathLen: nat): int
  {
    GoDiv(CommandLimit - pathLen, 4) * 3
  }

  /** maxChunks == 0 is raised to 1; every other budget is kept. */
  function Budget(maxChunks: nat): (b: nat)
    ensures b >= 1
  {
    if maxChunks == 0 then 1 else maxChunks
  }

  /** For every path of at most 7996 characters the chunk size is positive
      and a multiple of 3, and every chunk it allows, the full one included,
      encodes to at most 8000 - len(filePath) characters. */
  lemma ChunkFitsBudget(pathLen: nat, chunk: seq<Byte>)
    requires pathLen <= 7996
    requires |chunk| <= ChunkSize(pathLen)
    ensures ChunkSize(pathLen) > 0 && ChunkSize(pathLen) % 3 == 0
    ensures |Encode(chunk)| <= CommandLimit - pathLen
  {
    var q := GoDiv(CommandLimit - pathLen, 4);
    assert ChunkSize(pathLen) == 3 * q;
    assert q >= 1;
    EncodeLength(chunk);
    var n := |chunk|;
    assert (n + 2) / 3 <= q by {
      assert n + 2 <= 3 * q + 2;
      DivMonotone(n + 2, 3 * q + 2);
      assert (3 * q + 2) / 3 == q;
    }
    assert 4 * q <= CommandLimit - pathLen;
  }

  /** A full chunk, and so every chunk, encodes within the budget. */
  lemma FullChunkFits(pathLen: nat)
    requires pathLen <= 7996
    ensures EncodedLength(ChunkSize(pathLen)) <= CommandLimit - pathLen
  {
    var q := GoDiv(CommandLimit - pathLen, 4);
    assert ChunkSize(pathLen) == 3 * q;
    assert (3 * q + 2) / 3 == q;
  }

  lemma DivMonotone(x: nat, y: nat)
    requires x <= y
    ensures x / 3 <= y / 3
  {
  }

  /** The sign of the chunk size, both ways: positive exactly for paths of at
      most 7996 characters, zero for 7997 to 8003, negative beyond (where Go's
      make panics). */
  lemma ChunkSizeSign(pathLen: nat)
    ensures ChunkSize(pathLen) > 0 <==> pathLen <= 7996
    ensures ChunkSize(pathLen) == 0 <==> 7996 < pathLen < 8004
    ensures ChunkSize(pathLen) < 0 <==> 8004 <= pathLen
  {
    var q := GoDiv(CommandLimit - pathLen, 4);
    assert ChunkSize(pathLen) == 3 * q;
  }
}
