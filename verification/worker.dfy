/**
 * One worker's scan of a claimed batch (mine.c lines 242-286): hash the
 * block data with each nonce in turn, stop at the first nonce whose leading
 * 32 digest bits pass the difficulty test, and otherwise add the 120 hashes
 * to the worker's count.
 *
 * SHA-1 (FIPS 180-4, section 6.1) is not modelled: it is a parameter, any
 * total function from the input string to 20 bytes.
 */
module Worker {
  import opened Wrappers
  import opened Bits
  import opened Nonces
  import opened Hashing

  /** A SHA-1 digest: 20 bytes. */
  type Digest = d: seq<bv8> | |d| == 20 witness seq(20, k => 0)

  /** What every worker shares: the block data, the difficulty mask and the hash function. */
  datatype Params = Params(data: string, mask: bv32, sha1: string -> Digest)

  /** The leading 32 bits of the digest of the hash input for `nonce`. */
  function Front(p: Params, nonce: Nonce): bv32
  {
    HashFront(p.sha1(HashInput(p.data, nonce)))
  }

  /** The test at mine.c line 274 for one nonce. */
  predicate Accepts(p: Params, nonce: Nonce)
  {
    Matches(Front(p, nonce), p.mask)
  }

  /** No nonce of `batch` at an index in `[from, to)` is accepted. */
  predicate NoneAcceptedIn(p: Params, batch: seq<Nonce>, from: nat, to: nat)
    requires from <= to <= |batch|
  {
    forall j :: from <= j < to ==> !Accepts(p, batch[j])
  }

  /**
   * The index of the first accepted nonce at or after `from`, if any: the
   * scan order of the loop at mine.c line 243.
   */
  function FirstMatchFrom(p: Params, batch: seq<Nonce>, from: nat): (r: Option<nat>)
    requires from <= |batch|
    ensures r.Some? ==> from <= r.value < |batch| && Accepts(p, batch[r.value])
                        && NoneAcceptedIn(p, batch, from, r.value)
    ensures r.None? <==> NoneAcceptedIn(p, batch, from, |batch|)
    decreases |batch| - from
  {
    if from == |batch| then None
    else if Accepts(p, batch[from]) then Some(from)
    else FirstMatchFrom(p, batch, from + 1)
  }

  /** The index of the first accepted nonce of the batch, if any. */
  function FirstMatch(p: Params, batch: seq<Nonce>): (r: Option<nat>)
    ensures r.Some? ==> r.value < |batch| && Accepts(p, batch[r.value])
                        && NoneAcceptedIn(p, batch, 0, r.value)
    ensures r.None? <==> NoneAcceptedIn(p, batch, 0, |batch|)
  {
    FirstMatchFrom(p, batch, 0)
  }

  /** The first match is unique: an accepted index with no accepted index before it is the first match. */
  lemma FirstMatchUnique(p: Params, batch: seq<Nonce>, i: nat)
    requires i < |batch| && Accepts(p, batch[i]) && NoneAcceptedIn(p, batch, 0, i)
    ensures FirstMatch(p, batch) == Some(i)
  {
  }

  /**
   * mine.c lines 242-286 for one claimed batch. On a match the scan stops
   * and the count is left as it was (the return at line 281 comes before the
   * increment at line 286); otherwise the count grows by 120.
   */
  method ScanBatch(p: Params, batch: Batch, inversions: nat) returns (solution: Option<Nonce>, count: nat)
    ensures solution.Some? ==> solution.value in batch && Accepts(p, solution.value) && count == inversions
    ensures solution.None? ==> NoneAcceptedIn(p, batch, 0, |batch|) && count == inversions + NONCES_PER_TASK
    ensures FirstMatch(p, batch).Some? ==> solution == Some(batch[FirstMatch(p, batch).value])
  {
    var i := 0;
    while i < NONCES_PER_TASK
      invariant i <= NONCES_PER_TASK
      invariant NoneAcceptedIn(p, batch, 0, i)
    {
      var front := Front(p, batch[i]);
      if Matches(front, p.mask) {
        FirstMatchUnique(p, batch, i);
        return Some(batch[i]), inversions;
      }
      i := i + 1;
    }
    return None, inversions + NONCES_PER_TASK;
  }

  /** A difficulty of 0 accepts the very first nonce of every batch. */
  lemma ZeroDifficultyTakesFirst(p: Params, batch: Batch)
    requires p.mask == Mask(0)
    ensures FirstMatch(p, batch) == Some(0)
  {
    MatchesAtZero(Front(p, batch[0]));
    FirstMatchUnique(p, batch, 0);
  }
}
