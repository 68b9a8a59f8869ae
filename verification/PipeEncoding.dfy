/** A pace as one 64-bit word: the lap modulo 2^16 in the top bits, the pointer in the low 48. */
module PipeEncoding {
  import opened PipeModel

  const NUM_VERSIONS: nat := 0x1_0000
  const PTR_LIMIT: nat := 0x1_0000_0000_0000

  /** EncodeSenderPace_: the two bit fields do not overlap, so `or` is addition. */
  function Encode(pipe: nat, p: Pos): nat { p.lap % NUM_VERSIONS * PTR_LIMIT + (pipe + p.off) }

  function DecodePtr(word: nat): nat { word % PTR_LIMIT }

  function DecodeVersion(word: nat): nat { word / PTR_LIMIT }

  lemma DecodeEncode(pipe: nat, p: Pos)
    requires pipe + p.off < PTR_LIMIT
    ensures DecodePtr(Encode(pipe, p)) == pipe + p.off && DecodeVersion(Encode(pipe, p)) == p.lap % NUM_VERSIONS
    ensures Encode(pipe, p) < 0x1_0000_0000_0000_0000
  {
  }

  /** The CAS compares words where the model compares positions: the same, as long as the sender that loaded
      the old word is fewer than 2^16 laps late. */
  lemma CasComparesPositions(pipe: nat, p: Pos, q: Pos)
    requires pipe + p.off < PTR_LIMIT && pipe + q.off < PTR_LIMIT
    ensures Encode(pipe, p) == Encode(pipe, q) <==> p.off == q.off && p.lap % NUM_VERSIONS == q.lap % NUM_VERSIONS
    ensures p.lap <= q.lap < p.lap + 65536 ==> (Encode(pipe, p) == Encode(pipe, q) <==> p == q)
    ensures Encode(pipe, p) == Encode(pipe, p.(lap := p.lap + 65536))
  {
    DecodeEncode(pipe, p);
    DecodeEncode(pipe, q);
    if p.lap <= q.lap < p.lap + NUM_VERSIONS && p.lap % NUM_VERSIONS == q.lap % NUM_VERSIONS {
      SameResidue(p.lap, q.lap);
    }
  }

  lemma SameResidue(a: nat, b: nat)
    requires a <= b < a + NUM_VERSIONS && a % NUM_VERSIONS == b % NUM_VERSIONS
    ensures a == b
  {
    assert b - a == (b / NUM_VERSIONS - a / NUM_VERSIONS) * NUM_VERSIONS;
  }

  /** Storing the next version of a decoded word is storing the next lap. */
  lemma NextVersion(pipe: nat, p: Pos, off: nat)
    requires pipe + p.off < PTR_LIMIT && pipe + off < PTR_LIMIT
    ensures Encode(pipe, Pos(p.lap + 1, off))
            == (DecodeVersion(Encode(pipe, p)) + 1) % NUM_VERSIONS * PTR_LIMIT + (pipe + off)
  {
    DecodeEncode(pipe, p);
  }
}
