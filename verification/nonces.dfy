/**
 * Nonces and the producer's batches (mine.c lines 37 and 102-115).
 *
 * A nonce is a `uint64_t`, here a natural number below 2^64. The producer
 * hands out batches of `NONCES_PER_TASK` consecutive nonces, advancing its
 * cursor by one per nonce, starting from 0.
 */
module Nonces {

  /** 2^64, the number of `uint64_t` values. */
  const TWO_64: nat := 0x1_0000_0000_0000_0000

  /** `UINT64_MAX`, the bound in the producer's loop guard. */
  const UINT64_MAX: nat := 0xFFFF_FFFF_FFFF_FFFF

  /** Nonces per task (mine.c line 37). */
  const NONCES_PER_TASK: nat := 120

  type Nonce = n: nat | n < TWO_64

  /** A task: the nonces one worker scans in a row. */
  type Batch = b: seq<Nonce> | |b| == NONCES_PER_TASK witness seq(120, k => 0)

  // ---------------------------------------------------------------------
  // The loop as written: a 64-bit cursor that wraps, guarded by
  // `current_nonce < UINT64_MAX`.
  // ---------------------------------------------------------------------

  /** The batch the fill loop builds from `cursor`, each `current_nonce++` wrapping at 2^64. */
  function WrittenBatch(cursor: Nonce): Batch
  {
    seq(NONCES_PER_TASK, k requires 0 <= k < NONCES_PER_TASK => (cursor + k) % TWO_64)
  }

  /** The cursor after the fill loop: 120 increments, wrapping at 2^64. */
  function WrittenNext(cursor: Nonce): Nonce
  {
    (cursor + NONCES_PER_TASK) % TWO_64
  }

  /**
   * The fill loop (mine.c lines 105-115): stores the cursor, then increments
   * it, 120 times. Without wrap-around the batch is the consecutive run that
   * `Generate` describes.
   */
  method FillBatch(cursor: Nonce) returns (nonces: seq<Nonce>, next: Nonce)
    ensures nonces == WrittenBatch(cursor) && next == WrittenNext(cursor)
    ensures CanGenerate(cursor) ==> nonces == Generate(cursor)
    ensures cursor + NONCES_PER_TASK < TWO_64 ==> next == cursor + NONCES_PER_TASK
  {
    nonces := [];
    next := cursor;
    for i := 0 to NONCES_PER_TASK
      invariant |nonces| == i
      invariant forall k :: 0 <= k < i ==> nonces[k] == (cursor + k) % TWO_64
      invariant next == (cursor + i) % TWO_64
    {
      nonces := nonces + [next];
      next := (next + 1) % TWO_64;
    }
  }

  /** The cursor after `k` batches of the loop as written, starting from 0. */
  function WrittenCursor(k: nat): Nonce
  {
    if k == 0 then 0 else WrittenNext(WrittenCursor(k - 1))
  }

  /** After `k` batches the written cursor is 120k reduced modulo 2^64. */
  lemma {:induction false} WrittenCursorClosed(k: nat)
    ensures WrittenCursor(k) == (NONCES_PER_TASK * k) % TWO_64
  {
    if k > 0 {
      WrittenCursorClosed(k - 1);
      var a := NONCES_PER_TASK * (k - 1);
      assert NONCES_PER_TASK * k == a + NONCES_PER_TASK;
      ModAddStep(a, NONCES_PER_TASK);
    }
  }

  lemma ModAddStep(a: nat, b: nat)
    ensures (a % TWO_64 + b) % TWO_64 == (a + b) % TWO_64
  {
  }

  /** 120k reduced modulo 2^64 is even, since both 120 and 2^64 are. */
  lemma EvenResidue(k: nat)
    ensures ((NONCES_PER_TASK * k) % TWO_64) % 2 == 0
  {
    var n := NONCES_PER_TASK * k;
    var q := n / TWO_64;
    var r := n % TWO_64;
    assert n == q * TWO_64 + r;
    assert n == 2 * (60 * k);
    assert q * TWO_64 == 2 * (q * 0x8000_0000_0000_0000);
    assert r == 2 * (60 * k - q * 0x8000_0000_0000_0000);
  }

  /**
   * The guard `current_nonce < UINT64_MAX` (mine.c line 103) never fails:
   * the cursor is always even and `UINT64_MAX` is odd, so the loop only ends
   * through a solution.
   */
  lemma WrittenGuardNeverFails(k: nat)
    ensures WrittenCursor(k) < UINT64_MAX
  {
    WrittenCursorClosed(k);
    EvenResidue(k);
  }

  /** The number of whole batches that fit below 2^64 (2^64 = 120 * this + 16). */
  const LAST_BATCH: nat := 153_722_867_280_912_930

  /**
   * Batch number `LAST_BATCH` starts 16 below 2^64, wraps, and hands out
   * nonce 0 a second time: batch 0 already held it.
   */
  lemma WrittenLoopRepeatsNonce()
    ensures WrittenCursor(LAST_BATCH) == TWO_64 - 16
    ensures WrittenBatch(WrittenCursor(0))[0] == 0
    ensures WrittenBatch(WrittenCursor(LAST_BATCH))[16] == 0
  {
    WrittenCursorClosed(LAST_BATCH);
    LastBatchStart();
    WrapAtSixteen(WrittenCursor(LAST_BATCH));
  }

  lemma LastBatchStart()
    ensures (NONCES_PER_TASK * LAST_BATCH) % TWO_64 == TWO_64 - 16
  {
    assert NONCES_PER_TASK * LAST_BATCH == 18_446_744_073_709_551_600;
  }

  lemma WrapAtSixteen(cursor: Nonce)
    requires cursor == TWO_64 - 16
    ensures WrittenBatch(cursor)[16] == 0
  {
    assert WrittenBatch(cursor)[16] == (cursor + 16) % TWO_64;
  }

  // ---------------------------------------------------------------------
  // The corrected loop: a batch is generated only while it fits below 2^64.
  // ---------------------------------------------------------------------

  /** The corrected loop guard: the whole batch lies below 2^64. */
  predicate CanGenerate(cursor: nat)
  {
    cursor + NONCES_PER_TASK <= TWO_64
  }

  /** The batch of the 120 consecutive nonces from `start`. */
  function Generate(start: nat): Batch
    requires CanGenerate(start)
  {
    seq(NONCES_PER_TASK, k requires 0 <= k < NONCES_PER_TASK => start + k)
  }

  /** A generated batch is the run `start, start + 1, ..., start + 119` in increasing order. */
  lemma GenerateRun(start: nat)
    requires CanGenerate(start)
    ensures Generate(start)[0] == start
    ensures Generate(start)[NONCES_PER_TASK - 1] == start + NONCES_PER_TASK - 1
    ensures forall j, k :: 0 <= j < k < NONCES_PER_TASK ==> Generate(start)[j] < Generate(start)[k]
    ensures forall n :: n in Generate(start) <==> start <= n < start + NONCES_PER_TASK
  {
    var b := Generate(start);
    forall n | start <= n < start + NONCES_PER_TASK
      ensures n in b
    {
      assert b[n - start] == n;
    }
  }

  /** With the corrected guard, the written loop produces the consecutive run. */
  lemma CorrectedAgreesWithWritten(cursor: Nonce)
    requires CanGenerate(cursor)
    ensures WrittenBatch(cursor) == Generate(cursor)
    ensures cursor + NONCES_PER_TASK < TWO_64 ==> WrittenNext(cursor) == cursor + NONCES_PER_TASK
  {
  }

  /** The producer's `k`-th batch from cursor 0 under the corrected guard. */
  function BatchAt(k: nat): Batch
    requires CanGenerate(NONCES_PER_TASK * k)
  {
    Generate(NONCES_PER_TASK * k)
  }

  /** The corrected guard admits exactly the batches before `LAST_BATCH`. */
  lemma CorrectedGuardBound(k: nat)
    ensures CanGenerate(NONCES_PER_TASK * k) <==> k < LAST_BATCH
  {
    assert NONCES_PER_TASK * LAST_BATCH + 16 == TWO_64;
    if k < LAST_BATCH {
      assert NONCES_PER_TASK * k + NONCES_PER_TASK <= NONCES_PER_TASK * LAST_BATCH;
    } else {
      assert NONCES_PER_TASK * k >= NONCES_PER_TASK * LAST_BATCH;
    }
  }

  /** Nonce `n` lies in batch `k` exactly when `120k <= n < 120(k + 1)`. */
  lemma InBatchAt(n: nat, k: nat)
    requires CanGenerate(NONCES_PER_TASK * k)
    ensures n in BatchAt(k) <==> n / NONCES_PER_TASK == k
  {
    GenerateRun(NONCES_PER_TASK * k);
  }

  /** Distinct batches share no nonce. */
  lemma BatchesDisjoint(j: nat, k: nat, n: nat)
    requires CanGenerate(NONCES_PER_TASK * j) && CanGenerate(NONCES_PER_TASK * k)
    requires j != k
    ensures !(n in BatchAt(j) && n in BatchAt(k))
  {
    InBatchAt(n, j);
    InBatchAt(n, k);
  }

  /** The batches leave no gaps: every nonce below the cursor is in the batch numbered `n / 120`. */
  lemma BatchesCover(n: nat, count: nat)
    requires CanGenerate(NONCES_PER_TASK * count)
    requires n < NONCES_PER_TASK * count
    ensures CanGenerate(NONCES_PER_TASK * (n / NONCES_PER_TASK))
    ensures n in BatchAt(n / NONCES_PER_TASK)
  {
    var k := n / NONCES_PER_TASK;
    assert k < count;
    assert NONCES_PER_TASK * k <= NONCES_PER_TASK * count - NONCES_PER_TASK;
    InBatchAt(n, k);
  }
}
