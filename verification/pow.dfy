/**
 * `proof_of_work` and the proof-of-work test of `validate_block`: the
 * SHA-256 hex digest of the canonical block dict must start with
 * `difficulty` "0" characters.
 */
module Pow {
  import opened PyBuiltins
  import opened Utils
  import opened Records

  /** `sha256(deterministic_dumps({**base, "nonce": nonce}).encode())` */
  function PowHash(p: Primitives, base: map<string, Json>, nonce: int): string {
    p.sha256(CanonicalBytes(p, JObject(base["nonce" := JInt(nonce)])))
  }

  /** `h.startswith("0" * difficulty)` */
  predicate MeetsTarget(h: string, difficulty: int) {
    StartsWith(h, Repeat('0', difficulty))
  }

  /** The nonce solves the puzzle for these fields at this difficulty. */
  predicate Solves(p: Primitives, base: map<string, Json>, difficulty: int, nonce: int) {
    MeetsTarget(PowHash(p, base, nonce), difficulty)
  }

  /**
   * The target is met exactly when the first `difficulty` characters are
   * all "0"; a difficulty of zero or less is met by every hash.
   */
  lemma MeetsTargetIffLeadingZeros(h: string, difficulty: int)
    ensures MeetsTarget(h, difficulty)
        <==> difficulty <= 0 || (difficulty <= |h| && forall i :: 0 <= i < difficulty ==> h[i] == '0')
  {
    var z := Repeat('0', difficulty);
    if difficulty > 0 && difficulty <= |h| && forall i :: 0 <= i < difficulty ==> h[i] == '0' {
      assert h[..|z|] == z;
    }
    if MeetsTarget(h, difficulty) && difficulty > 0 {
      forall i | 0 <= i < difficulty ensures h[i] == '0' {
        assert h[..|z|][i] == z[i];
      }
    }
  }

  /** A hash that meets a target meets every lower one. */
  lemma MeetsLowerTarget(h: string, d: int, e: int)
    requires MeetsTarget(h, d) && e <= d
    ensures MeetsTarget(h, e)
  {
    MeetsTargetIffLeadingZeros(h, d);
    MeetsTargetIffLeadingZeros(h, e);
  }

  /** A 64-character digest never meets a difficulty above 64. */
  lemma NoDigestMeetsOver64(h: string, d: int)
    requires IsHexDigest(h) && d > 64
    ensures !MeetsTarget(h, d)
  {
  }

  /**
   * The PoW hash of a block's own fields and nonce IS the block hash: the
   * dict `{**content, "nonce": nonce}` equals `block.to_dict()`.
   */
  lemma PowHashIsBlockHash(p: Primitives, b: Block)
    ensures PowHash(p, PowContent(b), b.nonce) == HashBlock(p, b)
  {
    assert JObject(PowContent(b)["nonce" := JInt(b.nonce)]) == BlockJson(b);
  }

  /**
   * `proof_of_work(difficulty, base)`: the smallest nonce >= 0 that solves
   * the puzzle, found by trying 0, 1, 2, ... The Python loop never ends
   * when no nonce exists, so one is required to exist.
   */
  method ProofOfWork(p: Primitives, difficulty: int, base: map<string, Json>) returns (nonce: nat)
    requires exists n: nat :: Solves(p, base, difficulty, n)
    ensures Solves(p, base, difficulty, nonce)
    ensures forall k: nat :: k < nonce ==> !Solves(p, base, difficulty, k)
  {
    ghost var w: nat :| Solves(p, base, difficulty, w);
    var prefix := Repeat('0', difficulty);
    nonce := 0;
    while true
      invariant nonce <= w
      invariant forall k: nat :: k < nonce ==> !Solves(p, base, difficulty, k)
      decreases w - nonce
    {
      var candidate := CanonicalBytes(p, JObject(base["nonce" := JInt(nonce)]));
      var h := p.sha256(candidate);
      if StartsWith(h, prefix) {
        return;
      }
      nonce := nonce + 1;
    }
  }
}
