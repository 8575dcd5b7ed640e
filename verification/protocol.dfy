/**
 * The task-slot hand-off between the producer in `main` and the workers in
 * `mine` (mine.c lines 102-135, 216-287), as a sequential state machine.
 *
 * Each critical section becomes one atomic step:
 *   - Fill: the producer builds the next batch (lines 105-115);
 *   - Stage: it publishes the batch in the empty slot (lines 119-134);
 *   - Abandon: it sees a solution while holding a batch and leaves (lines 123-124);
 *   - Exhaust: the loop guard stops it (line 103, corrected, see Nonces);
 *   - Claim: a waiting worker takes the staged batch (lines 218-240);
 *   - Exit: a waiting worker sees a solution and returns (lines 224-230);
 *   - Finish: a worker scans its whole batch (lines 242-286), reporting a
 *     solution (line 275) or adding 120 to its count (line 286).
 * Condition waits are not steps: a step is simply not enabled until its
 * guard holds.
 */
module Protocol {
  import opened Wrappers
  import opened Nonces
  import opened Worker
  import opened Report

  /** Where the producer is in its loop. */
  datatype Producer = Ready | Holding(batch: Batch) | Stopped(abandoned: Option<Batch>)

  /** Where a worker is in its loop; a solver keeps the batch it solved. */
  datatype Phase = Waiting | Scanning(batch: Batch) | Solved(batch: Batch, nonce: Nonce) | Exited

  datatype Thread = Thread(phase: Phase, inversions: nat)

  /**
   * `task_pointer`, `solution_found`, the producer's `current_nonce`, and the
   * workers. `retired` is history the program does not keep: the batches
   * freed at line 285 after a scan without a match.
   */
  datatype State = State(slot: Option<Batch>, found: bool, cursor: nat, producer: Producer, threads: seq<Thread>,
                         retired: multiset<Batch>)

  datatype Step = Fill | Stage | Abandon | Exhaust | Claim(w: nat) | Exit(w: nat) | Finish(w: nat)

  /** Before any thread runs: empty slot, no solution, cursor 0, every worker waiting with count 0. */
  function Init(n: nat): State
  {
    State(None, false, 0, Ready, seq(n, w => Thread(Waiting, 0)), multiset{})
  }

  predicate IsWaiting(s: State, w: nat)
  {
    w < |s.threads| && s.threads[w].phase.Waiting?
  }

  /** The guard of each step, read off the `while` and `if` conditions around it. */
  predicate Enabled(s: State, step: Step)
  {
    match step
    case Fill => s.producer.Ready? && CanGenerate(s.cursor)
    case Stage => s.producer.Holding? && s.slot.None? && !s.found
    case Abandon => s.producer.Holding? && s.found
    case Exhaust => s.producer.Ready? && !CanGenerate(s.cursor)
    case Claim(w) => IsWaiting(s, w) && s.slot.Some? && !s.found
    case Exit(w) => IsWaiting(s, w) && s.found
    case Finish(w) => w < |s.threads| && s.threads[w].phase.Scanning?
  }

  /** The effect of an enabled step. */
  function Apply(p: Params, s: State, step: Step): State
    requires Enabled(s, step)
  {
    match step
    case Fill => s.(cursor := s.cursor + NONCES_PER_TASK, producer := Holding(Generate(s.cursor)))
    case Stage => s.(slot := Some(s.producer.batch), producer := Ready)
    case Abandon => s.(producer := Stopped(Some(s.producer.batch)))
    case Exhaust => s.(producer := Stopped(None))
    case Claim(w) =>
      s.(slot := None, threads := s.threads[w := s.threads[w].(phase := Scanning(s.slot.value))])
    case Exit(w) => s.(threads := s.threads[w := s.threads[w].(phase := Exited)])
    case Finish(w) => AfterScan(p, s, w)
  }

  /** Worker `w` has scanned its batch: it records the first accepted nonce, or counts the batch and waits again. */
  function AfterScan(p: Params, s: State, w: nat): State
    requires w < |s.threads| && s.threads[w].phase.Scanning?
  {
    var t := s.threads[w];
    var b := t.phase.batch;
    match FirstMatch(p, b)
    case Some(i) => s.(found := true, threads := s.threads[w := t.(phase := Solved(b, b[i]))])
    case None =>
      s.(threads := s.threads[w := Thread(Waiting, t.inversions + NONCES_PER_TASK)], retired := s.retired + multiset{b})
  }

  /** Runs the steps in order; `None` when one of them is not enabled. */
  function Run(p: Params, s: State, steps: seq<Step>): Option<State>
    decreases |steps|
  {
    if steps == [] then Some(s)
    else if Enabled(s, steps[0]) then Run(p, Apply(p, s, steps[0]), steps[1..])
    else None
  }

  // ---------------------------------------------------------------------
  // Where the batches are
  // ---------------------------------------------------------------------

  function SlotBatches(slot: Option<Batch>): multiset<Batch>
  {
    if slot.Some? then multiset{slot.value} else multiset{}
  }

  function ProducerBatches(q: Producer): multiset<Batch>
  {
    match q
    case Ready => multiset{}
    case Holding(b) => multiset{b}
    case Stopped(a) => SlotBatches(a)
  }

  /** The worker owns a batch: it is scanning it or has solved it. */
  predicate Holds(t: Thread)
  {
    t.phase.Scanning? || t.phase.Solved?
  }

  function HeldBatches(t: Thread): multiset<Batch>
  {
    if Holds(t) then multiset{t.phase.batch} else multiset{}
  }

  function ThreadBatches(ts: seq<Thread>): multiset<Batch>
  {
    if ts == [] then multiset{} else ThreadBatches(ts[..|ts| - 1]) + HeldBatches(ts[|ts| - 1])
  }

  /** Every generated batch not yet counted: staged, held by the producer, or held by a worker. */
  function Live(s: State): multiset<Batch>
  {
    SlotBatches(s.slot) + ProducerBatches(s.producer) + ThreadBatches(s.threads)
  }

  /** Every batch generated so far: still live, or retired into a worker's count. */
  function Issuance(s: State): multiset<Batch>
  {
    Live(s) + s.retired
  }

  /** The batches whose hashing has begun: held by a worker, or retired. */
  function Scanned(s: State): multiset<Batch>
  {
    ThreadBatches(s.threads) + s.retired
  }

  /** The workers as `print_results` sees them. */
  function Infos(ts: seq<Thread>): (r: seq<ThreadInfo>)
    ensures |r| == |ts|
  {
    seq(|ts|, w requires 0 <= w < |ts| => Info(w, ts[w]))
  }

  function Info(w: nat, t: Thread): ThreadInfo
  {
    ThreadInfo(w, t.inversions, if t.phase.Solved? then Some(t.phase.nonce) else None)
  }

  // ---------------------------------------------------------------------
  // The invariant
  // ---------------------------------------------------------------------

  /** `b` is the batch the producer generated at a multiple of 120 below the cursor. */
  predicate Issued(b: Batch, cursor: nat)
  {
    b[0] % NONCES_PER_TASK == 0 && CanGenerate(b[0]) && b[0] + NONCES_PER_TASK <= cursor && b == Generate(b[0])
  }

  predicate SomeSolved(ts: seq<Thread>)
  {
    exists w :: 0 <= w < |ts| && ts[w].phase.Solved?
  }

  /** A solver's nonce is the first accepted nonce of its batch. */
  predicate SolvedCorrectly(p: Params, ph: Phase)
  {
    ph.Solved? && FirstMatch(p, ph.batch).Some? && ph.nonce == ph.batch[FirstMatch(p, ph.batch).value]
  }

  /** The cursor is a multiple of 120 and never passes 2^64. */
  predicate Aligned(s: State)
  {
    s.cursor % NONCES_PER_TASK == 0 && s.cursor <= TWO_64
  }

  /** Every generated batch was issued from a 120-aligned cursor below the current one. */
  ghost predicate AllIssued(s: State)
  {
    forall b :: b in Issuance(s) ==> Issued(b, s.cursor)
  }

  /** No batch was generated twice, is live in two places, or is both live and retired. */
  ghost predicate Unique(s: State)
  {
    forall b :: Issuance(s)[b] <= 1
  }

  /** Every issued nonce is counted by exactly one worker or still sits in a live batch. */
  predicate Accounted(s: State)
  {
    TotalInversions(Infos(s.threads)) + NONCES_PER_TASK * |Live(s)| == s.cursor
  }

  /** The workers' counts are 120 per retired batch. */
  predicate Counted(s: State)
  {
    TotalInversions(Infos(s.threads)) == NONCES_PER_TASK * |s.retired|
  }

  /** The flag is set exactly when some worker holds a solution, and exits happen only after it. */
  predicate FlagTracksSolvers(s: State)
  {
    && (s.found <==> SomeSolved(s.threads))
    && (forall w :: 0 <= w < |s.threads| && s.threads[w].phase.Exited? ==> s.found)
  }

  /** Every solver holds the first accepted nonce of its batch. */
  predicate SolversCorrect(p: Params, ts: seq<Thread>)
  {
    forall w :: 0 <= w < |ts| && ts[w].phase.Solved? ==> SolvedCorrectly(p, ts[w].phase)
  }

  /** The producer stops only on a solution or when no further batch fits below 2^64. */
  predicate StopJustified(s: State)
  {
    s.producer.Stopped? ==> s.found || !CanGenerate(s.cursor)
  }

  ghost predicate Inv(p: Params, s: State)
  {
    && Aligned(s)
    && AllIssued(s)
    && Unique(s)
    && Accounted(s)
    && Counted(s)
    && FlagTracksSolvers(s)
    && SolversCorrect(p, s.threads)
    && StopJustified(s)
  }
}
