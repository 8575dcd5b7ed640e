# A Dafny model of the `mine.c` hash-inversion miner

`mine.c` is a small proof-of-work miner. Its inputs are a thread count, a
difficulty `d` and a block of text. A producer in `main` hands out batches of
120 consecutive nonces, one batch at a time, through a single shared slot.
Worker threads (`mine`) claim batches from the slot. For each nonce a worker
hashes the block text followed by the nonce in decimal with SHA-1. A nonce
is a solution when the leading 32 bits of the digest have `d` leading zero
bits. The first solution stops the run, and `print_results` reports the
solution and the total number of hashes.

The model keeps the computations and the hand-off protocol.

- `Bits` (bits.dfy) covers `get_difficulty`, the acceptance test
  `(hash_front & mask) == hash_front`, and the big-endian packing of the
  first four digest bytes. `uint32_t` values are `bv32`.
- `Binary` (binary.dfy) models `print_binary32` as a function returning the
  32 characters it prints, together with the base-2 reading that undoes it.
- `Decimal` (decimal.dfy) is the `%llu` rendering of a nonce and its
  inverse.
- `Hashing` (hashing.dfy) builds the string that is hashed: the block data
  followed by the decimal nonce, with no separator.
- `Nonces` (nonces.dfy) covers the producer's batches: the fill loop as
  written, with its 64-bit wrap-around, and the batches under a corrected
  loop guard.
- `Worker` (worker.dfy) is the scan of one batch: the first accepted nonce
  and the count update. SHA-1 is a parameter, any function from strings to
  20 bytes.
- `Report` (report.dfy) is `print_results`: which workers report a
  solution, and the hash total, accumulated modulo 2^64.
- `Protocol` (protocol.dfy) is the slot hand-off as a sequential state
  machine. Each critical section is one atomic step: Fill, Stage, Abandon,
  Exhaust, Claim, Exit and Finish. `Enabled` holds the guard of each step,
  `Apply` its effect, and `Run` applies a sequence of steps. The invariant
  `Inv` says:
  - every batch generated so far is either live (staged, held by the
    producer or held by a worker) or retired (scanned without a match), in
    exactly one place, and was issued at a multiple of 120 below the cursor;
  - the worker counts are 120 per retired batch, and with 120 per live batch
    they add up to the cursor;
  - the flag is set exactly when some worker holds a solution;
  - every solution is the first accepted nonce of its batch;
  - the producer stops only on a solution or on exhaustion.
- `Safety` (safety.dfy) proves that `Inv` holds initially and after every
  step, then derives the safety properties from it.
- `Setup` (setup.dfy) covers start-up: the mask, the refusal of empty
  block data, the worker count with its fallback of 5, and the initial
  state.

At most one batch is pending by construction: the slot is a single
`Option<Batch>`.

The retired batches are history that `mine.c` does not keep (it frees
them at line 285). The model records them so that "no nonce is hashed
twice" can be stated over a whole run.

A worker reads `solution_found` only before it claims a batch (lines 219
and 224). It does not stop a worker that is already scanning when another
worker raises the flag: that worker scans the rest of its batch (lines
243-283), and if it finds an accepted nonce it records a solution of its
own. So a run can end with more than one solution record, and batches are
still hashed after the flag is raised, although the comments at lines
139-141 and 215 speak of "one of the threads" finding "a solution". `Safety.TwoSolvers` exhibits such a run
with two workers at difficulty 0.

## Model

| member | source | states |
|---|---|---|
| `Bits.GetDifficulty` | mine.c:190-200 | the loop builds the mask with `32 - d` low one bits; for `d <= 32` its value is `2^(32-d) - 1`, and for `d > 32` the mask is empty |
| `Bits.MaskBits` | mine.c:190-200 | bit `i` of the mask is set exactly when `i < 32 - d`: `d` leading zeros, then ones |
| `Bits.MatchesIffAtMost` | mine.c:274 | a leading word passes the test against the level-`d` mask iff it is at most the mask in unsigned 32-bit order |
| `Bits.MatchesIffBelow` | mine.c:274 | a leading word passes the test at level `d <= 32` iff its value is below `2^(32-d)` (both directions) |
| `Bits.MatchesIffTopClear` | mine.c:274 | a leading word passes iff its top `d` bits are all zero (both directions) |
| `Bits.MatchesAtZero` | mine.c:274 | at difficulty 0 every leading word passes |
| `Bits.MatchesAtThirtyTwo` | mine.c:274 | at difficulty 32 only the all-zero word passes |
| `Bits.HashFront` | mine.c:265-269 | the packed word is `d0*2^24 + d1*2^16 + d2*2^8 + d3` |
| `Bits.UnpackPack` | mine.c:265-269 | each of the four bytes is recovered from the packed word by shifting and masking |
| `Bits.PackUnpack` | mine.c:265-269 | every 32-bit word is the packing of its own four bytes |
| `Binary.RenderBits` | mine.c:176-179 | printing bits `n-1 .. 0` yields `n` binary digits, and the digit at index `n-1-p` shows bit `p` |
| `Binary.Binary32` | mine.c:174-180 | `print_binary32` yields exactly 32 characters from {'0','1'}, and character `31-p` shows bit `p`, most significant first |
| `Binary.PrintedDigit` | mine.c:177-178 | the printed character for bit `p` is '1' exactly when the bit is set |
| `Binary.ParseOfBinary` | mine.c:174-180 | reading the printed text as base 2 gives back the printed word |
| `Binary.BinaryOfParse` | mine.c:174-180 | every 32-digit binary string is the printout of its own base-2 value, so printing is a bijection onto such strings |
| `Binary.MaskRendering` | mine.c:74-75 | the "Difficulty Mask:" line shows `d` zeros followed by `32-d` ones |
| `Decimal.Render` | mine.c:246 | `%llu` output is a non-empty digit string with no leading zero (except "0") whose length `k` satisfies `10^(k-1) <= n < 10^k` |
| `Decimal.ParseRender` | mine.c:246 | reading the rendering back as decimal gives the nonce |
| `Decimal.RenderParse` | mine.c:246 | every canonical digit string is the rendering of its value |
| `Decimal.RenderInjective` | mine.c:246 | distinct nonces render differently |
| `Decimal.RenderFitsBuffer` | mine.c:245-246 | a value below 2^64 renders to at most 20 digits, which with the NUL fits `buf[21]` |
| `Decimal.LargestNeedsTwenty` | mine.c:245 | the bound is tight: `UINT64_MAX` needs all 20 digits |
| `Hashing.HashInputShape` | mine.c:251-254 | the hashed string is `strlen(buf) + strlen(data)` long (at most 20 more than the data), starts with the data and ends with the canonical numeral |
| `Hashing.RecoverNonce` | mine.c:244-254 | the nonce is read back from what follows the data |
| `Hashing.HashInputInjective` | mine.c:244-254 | for fixed data, distinct nonces give distinct hash inputs |
| `Hashing.HelloWorldTen` | mine.c:248-250 | "Hello World!" with nonce 10 gives "Hello World!10" |
| `Hashing.NoSeparator` | mine.c:253-254 | with no separator, ("a1", 2) and ("a", 12) give the same input; only the fixed data makes the nonce recoverable |
| `Nonces.FillBatch` | mine.c:105-115 | the fill loop stores 120 successive cursor values, each `current_nonce++` wrapping at 2^64; under the corrected guard this is the consecutive run from the cursor, and the cursor advances by exactly 120 |
| `Nonces.WrittenCursorClosed` | mine.c:102-115 | after `k` batches the written cursor is `120k mod 2^64` |
| `Nonces.WrittenGuardNeverFails` | mine.c:103 | the guard `current_nonce < UINT64_MAX` holds after every batch: the cursor is even and `UINT64_MAX` is odd |
| `Nonces.WrittenLoopRepeatsNonce` | mine.c:103-108 | batch number 153722867280912930 starts at 2^64 - 16, wraps, and hands out nonce 0 again |
| `Nonces.GenerateRun` | mine.c:105-108 | a batch from `c` holds `c, c+1, ..., c+119` in increasing order, and a nonce is in it iff it lies in `[c, c+120)` |
| `Nonces.CorrectedAgreesWithWritten` | mine.c:105-115 | while the batch fits below 2^64, the written loop and the corrected batch coincide |
| `Nonces.CorrectedGuardBound` | mine.c:103 | the corrected guard admits exactly the batches numbered below 153722867280912930 |
| `Nonces.InBatchAt` | mine.c:102-115 | nonce `n` is in batch `k` exactly when `n / 120 == k` |
| `Nonces.BatchesDisjoint` | mine.c:102-115 | distinct batches from cursor 0 share no nonce |
| `Nonces.BatchesCover` | mine.c:102-115 | the batches leave no gaps: every nonce below the cursor is in batch `n / 120` |
| `Worker.FirstMatchFrom` | mine.c:243-283 | the scan from index `i` stops at an accepted nonce with none accepted before it, or reports that none in the rest is accepted |
| `Worker.FirstMatch` | mine.c:243-283 | the same for a whole batch: the first accepted index, or none iff no nonce is accepted |
| `Worker.FirstMatchUnique` | mine.c:243-282 | an accepted index with none accepted before it is the one the scan stops at |
| `Worker.ScanBatch` | mine.c:242-286 | the scan returns the first accepted nonce of the batch with the count unchanged, or nothing with the count raised by exactly 120 when no nonce is accepted |
| `Worker.ZeroDifficultyTakesFirst` | mine.c:274 | at difficulty 0 the scan stops at the first nonce of every batch |
| `Report.Winners` | mine.c:296-301 | the reported workers are exactly those holding a solution, in thread order |
| `Report.PrintResults` | mine.c:292-303 | the loop lists the workers with a solution and sums the counts modulo 2^64, which is the exact sum when that is below 2^64 |
| `Report.TotalAppend` | mine.c:302 | the total over a concatenation is the sum of the totals |
| `Report.TotalUpdate` | mine.c:286 | raising one worker's count raises the total by the same amount |
| `Report.CountAtMostTotal` | mine.c:302 | no worker's count exceeds the total |
| `Safety.InitInv` | mine.c:43-46 | the initial state (empty slot, flag clear, cursor 0, workers waiting with count 0) satisfies the invariant |
| `Safety.FillPreserves` | mine.c:105-115 | the batch built is none of the batches generated before (live or retired), the generated batches grow by exactly that batch, and the invariant is kept |
| `Safety.StagePreserves` | mine.c:119-134 | staging moves the producer's batch into the empty slot, keeping the invariant |
| `Safety.AbandonPreserves` | mine.c:123-124 | a producer seeing the flag stops with its batch unstaged, keeping the invariant |
| `Safety.ExhaustPreserves` | mine.c:103 | the producer stopping at the corrected guard keeps the invariant |
| `Safety.ClaimPreserves` | mine.c:218-240 | claiming moves the staged batch to the worker and empties the slot, keeping the invariant |
| `Safety.ExitPreserves` | mine.c:224-230 | a waiting worker seeing the flag exits, keeping the invariant |
| `Safety.FinishMissPreserves` | mine.c:243-286 | a scan without a match retires the batch into the worker's count, keeping the invariant |
| `Safety.FinishHitPreserves` | mine.c:274-281 | a scan with a match raises the flag and records the first accepted nonce, keeping the invariant |
| `Safety.StepPreserves` | mine.c:102-135 | every enabled step keeps the invariant |
| `Safety.RunPreserves` | mine.c:216-287 | every state reached by enabled steps keeps the invariant |
| `Safety.ReachableInv` | mine.c:86-135 | every state reachable from the start satisfies the invariant |
| `Safety.FoundStays` | mine.c:275 | once set, `solution_found` stays set along any run |
| `Safety.FrozenStep` | mine.c:120-128 | with the flag set, no Stage or Claim is enabled, the slot keeps its content and no worker gains a batch |
| `Safety.FrozenAfterFound` | mine.c:219-236 | along any run after the flag is set, no Stage or Claim step occurs, the slot does not change and the workers' batches only shrink |
| `Safety.ExclusiveOwnership` | mine.c:233-236 | two different workers never hold the same batch |
| `Safety.SlotNotHeld` | mine.c:233-236 | the staged batch belongs to no worker, for every worker index |
| `Safety.ConcurrentScansApart` | mine.c:233-246 | the batches held by two workers at the same time share no nonce |
| `Safety.ScannedOnce` | mine.c:233-286 | in a reachable state every batch whose hashing has begun was handed to a worker exactly once, and two different such batches share no nonce |
| `Safety.StepScannedGrows` | mine.c:233-286 | no step removes a batch from those whose hashing has begun: a scan without a match retires its batch |
| `Safety.RunScannedGrows` | mine.c:216-287 | the same along any run |
| `Safety.NoNonceTwice` | mine.c:102-286 | along a whole run from the start, every batch hashed at any point is at the end a batch scanned exactly once, and two different scanned batches share no nonce: no nonce is hashed twice |
| `Safety.TotalFits` | mine.c:293-302 | the counts add up to at most the nonces issued, which stay below 2^64, so `num_inversions` and `total_inversions` never wrap |
| `Safety.WinnersIffFound` | mine.c:297-301 | `print_results` reports a solution exactly when the flag is set, and every reported nonce passes the test |
| `Safety.TwoSolvers` | mine.c:243-282 | two workers that both claimed before either finished can both end as solvers |
| `Setup.Launch` | mine.c:72-98 | empty block data is refused; otherwise the mask is `get_difficulty(d)`, at least one worker runs (the requested count when positive, else 5), and the initial state satisfies the invariant |

## Left out

- Threads, mutexes and condition variables are not modelled as such. Each critical section is one atomic step, and a condition wait is a step that is not yet enabled. Wake-up delivery, signal versus broadcast, deadlock freedom and liveness are not modelled.
- The write of `solution_found` at mine.c:275 happens without the mutex. This is a data race in the program. The model treats the whole scan, including that write, as one atomic step and makes no claim about the race.
- SHA-1 (FIPS 180-4, section 6.1) comes from a separate file and is not part of this model. It is a parameter: any total function from strings to 20 bytes.
- `sha1tostring` and the "Hash:" line are not modelled. A solution record is the nonce alone.
- Argument parsing is not modelled: the `argc` check and `atoi`. The difficulty is a natural number, because a negative difficulty makes the shift at mine.c:195 undefined.
- Timing (`get_time`), the hashes-per-second division, the progress dots (mine.c:110-114), `printf` output, and `malloc`/`free` are not modelled. The batch leaked when the producer abandons it is not modelled either.
- Bits.GetDifficulty: `1 << i` at mine.c:195 is a signed `int` shift, and for `i = 31` (difficulty 0) it shifts into the sign bit, which C leaves undefined. The model uses the 32-bit unsigned shift that compilers emit.
- Binary.RenderBits: the same holds for `1 << i` with `i = 31` at mine.c:177, which `Binary.Binary32` reaches; the model uses the 32-bit unsigned shift.
- Hashing.HashInputShape: the block data is modelled as one character per byte (`strlen` counts bytes). Text encodings are not modelled, so for data with multi-byte characters the length stated is in characters, not bytes.
- Bits.HashFront: `digest[0] << 24` is evaluated in signed `int`, which overflows when `digest[0] >= 0x80`. The model uses the 32-bit shift that compilers emit. The contract states the packed value as a sum in 32-bit arithmetic, not as a natural-number sum.
- Worker.ScanBatch: the worker count is an unbounded natural, so the 64-bit wrap of `num_inversions += 120` is not modelled there. `Safety.TotalFits` shows that no reachable state comes near 2^64.
- `Protocol` uses the corrected producer guard (see Findings). With the corrected guard, a producer that runs out of nonces stops, and workers left waiting are not modelled further.

## Findings

| source | as written | input that shows it | evidently intended | confidence | as-written member | corrected member |
|---|---|---|---|---|---|---|
| mine.c:103-108 | the loop continues while `current_nonce < UINT64_MAX`, and the 64-bit cursor advances by 120 per batch, wrapping at 2^64 | from cursor 0 the cursor is always even, so the guard never fails (`Nonces.WrittenGuardNeverFails`). Batch 153722867280912930 starts at 2^64 - 16 and wraps, so nonce 0 is handed out a second time, at index 16 | stop before a batch would pass `UINT64_MAX`, so that no nonce is issued twice (`cursor + 120 <= 2^64`) | not executed; pure arithmetic, reachable only after about 1.8 * 10^19 hashes | `Nonces.WrittenLoopRepeatsNonce` | `Nonces.BatchesDisjoint` |
