/**
 * What the hand-off guarantees: the invariant of `Protocol` holds initially
 * and after every step, and from it the safety properties of the miner
 * follow: one pending batch at most, every batch owned by one place, no nonce
 * scanned twice, a write-once solution flag, no staging or claiming after a
 * solution, and a reported total that fits in 64 bits.
 */
module Safety {
  import opened Wrappers
  import opened Bits
  import opened Nonces
  import opened Worker
  import opened Report
  import opened Protocol

  // ---------------------------------------------------------------------
  // Bookkeeping over the worker sequence
  // ---------------------------------------------------------------------

  lemma {:induction false} ThreadBatchesAppend(a: seq<Thread>, b: seq<Thread>)
    ensures ThreadBatches(a + b) == ThreadBatches(a) + ThreadBatches(b)
    decreases |b|
  {
    if b == [] {
      assert a + b == a;
    } else {
      var c := b[..|b| - 1];
      assert (a + b)[..|a + b| - 1] == a + c;
      ThreadBatchesAppend(a, c);
    }
  }

  /** The held batches split around worker `w`. */
  lemma ThreadBatchesSplit(ts: seq<Thread>, w: nat)
    requires w < |ts|
    ensures ThreadBatches(ts) == ThreadBatches(ts[..w]) + HeldBatches(ts[w]) + ThreadBatches(ts[w + 1..])
  {
    assert ts[..w + 1] == ts[..w] + [ts[w]];
    ThreadBatchesSnoc(ts[..w], ts[w]);
    assert ts == ts[..w + 1] + ts[w + 1..];
    ThreadBatchesAppend(ts[..w + 1], ts[w + 1..]);
  }

  lemma ThreadBatchesSnoc(a: seq<Thread>, x: Thread)
    ensures ThreadBatches(a + [x]) == ThreadBatches(a) + HeldBatches(x)
  {
    assert (a + [x])[..|a|] == a;
  }

  /** Replacing worker `w` swaps its batches in the multiset of held batches. */
  lemma ThreadBatchesUpdate(ts: seq<Thread>, w: nat, t: Thread)
    requires w < |ts|
    ensures HeldBatches(ts[w]) <= ThreadBatches(ts)
    ensures ThreadBatches(ts[w := t]) == ThreadBatches(ts) - HeldBatches(ts[w]) + HeldBatches(t)
  {
    var u := ts[w := t];
    ThreadBatchesSplit(ts, w);
    ThreadBatchesSplit(u, w);
    assert u[..w] == ts[..w];
    assert u[w + 1..] == ts[w + 1..];
  }

  /** Two different workers' batches both sit in the multiset of held batches. */
  lemma ThreadBatchesPair(ts: seq<Thread>, v: nat, w: nat)
    requires v < w < |ts|
    ensures HeldBatches(ts[v]) + HeldBatches(ts[w]) <= ThreadBatches(ts)
  {
    ThreadBatchesSplit(ts, w);
    ThreadBatchesUpdate(ts[..w], v, ts[v]);
    assert ts[..w][v] == ts[v];
  }

  /** `print_results`' view of the workers after replacing worker `w`. */
  lemma InfosUpdate(ts: seq<Thread>, w: nat, t: Thread)
    requires w < |ts|
    ensures Infos(ts[w := t]) == Infos(ts)[w := Info(w, t)]
    ensures TotalInversions(Infos(ts[w := t])) + ts[w].inversions == TotalInversions(Infos(ts)) + t.inversions
  {
    assert Infos(ts[w := t]) == Infos(ts)[w := Info(w, t)];
    TotalUpdate(Infos(ts), w, Info(w, t));
  }

  // ---------------------------------------------------------------------
  // The invariant is inductive
  // ---------------------------------------------------------------------

  /** The state before any thread runs satisfies the invariant. */
  lemma InitInv(p: Params, n: nat)
    ensures Inv(p, Init(n))
  {
    var s := Init(n);
    ThreadBatchesNone(s.threads);
    assert Live(s) == multiset{};
    InfosZero(s.threads);
  }

  lemma {:induction false} ThreadBatchesNone(ts: seq<Thread>)
    requires forall w :: 0 <= w < |ts| ==> ts[w].phase.Waiting?
    ensures ThreadBatches(ts) == multiset{}
    decreases |ts|
  {
    if ts != [] {
      ThreadBatchesNone(ts[..|ts| - 1]);
    }
  }

  lemma {:induction false} InfosZero(ts: seq<Thread>)
    requires forall w :: 0 <= w < |ts| ==> ts[w].inversions == 0
    ensures TotalInversions(Infos(ts)) == 0
    decreases |ts|
  {
    if ts != [] {
      var front := ts[..|ts| - 1];
      InfosZero(front);
      assert Infos(ts)[..|ts| - 1] == Infos(front);
    }
  }

  /** The producer builds a batch no earlier step generated, and the invariant survives. */
  lemma FillPreserves(p: Params, s: State)
    requires Inv(p, s) && Enabled(s, Fill)
    ensures Generate(s.cursor) !in Issuance(s)
    ensures Issuance(Apply(p, s, Fill)) == Issuance(s) + multiset{Generate(s.cursor)}
    ensures Inv(p, Apply(p, s, Fill))
  {
    var t := Apply(p, s, Fill);
    var b := Generate(s.cursor);
    GenerateRun(s.cursor);
    assert Live(t) == Live(s) + multiset{b};
    assert Issuance(t) == Issuance(s) + multiset{b};
    assert b !in Issuance(s);
    assert Issued(b, t.cursor);
    forall c | c in Issuance(t)
      ensures Issued(c, t.cursor)
    {
      if c != b {
        assert c in Issuance(s);
      }
    }
  }

  lemma StagePreserves(p: Params, s: State)
    requires Inv(p, s) && Enabled(s, Stage)
    ensures Inv(p, Apply(p, s, Stage))
  {
    var t := Apply(p, s, Stage);
    assert Live(t) == Live(s);
    assert Issuance(t) == Issuance(s);
    SameIssuance(s, t);
  }

  lemma AbandonPreserves(p: Params, s: State)
    requires Inv(p, s) && Enabled(s, Abandon)
    ensures Inv(p, Apply(p, s, Abandon))
  {
    var t := Apply(p, s, Abandon);
    assert Live(t) == Live(s);
    assert Issuance(t) == Issuance(s);
    SameIssuance(s, t);
  }

  lemma ExhaustPreserves(p: Params, s: State)
    requires Inv(p, s) && Enabled(s, Exhaust)
    ensures Inv(p, Apply(p, s, Exhaust))
  {
    var t := Apply(p, s, Exhaust);
    assert Live(t) == Live(s);
    assert Issuance(t) == Issuance(s);
    SameIssuance(s, t);
  }

  /** Replacing a non-solver by a non-solver leaves the set of solvers as it was. */
  lemma SolvedUnchanged(ts: seq<Thread>, w: nat, th: Thread)
    requires w < |ts| && !ts[w].phase.Solved? && !th.phase.Solved?
    ensures SomeSolved(ts[w := th]) <==> SomeSolved(ts)
  {
    if SomeSolved(ts) {
      var v :| 0 <= v < |ts| && ts[v].phase.Solved?;
      assert ts[w := th][v].phase.Solved?;
    }
    if SomeSolved(ts[w := th]) {
      var v :| 0 <= v < |ts| && ts[w := th][v].phase.Solved?;
      assert ts[v].phase.Solved?;
    }
  }

  /**
   * The flag keeps tracking the solvers when one non-solver changes phase,
   * the flag being raised exactly when it becomes a solver.
   */
  lemma FlagAfterUpdate(s: State, t: State, w: nat, th: Thread)
    requires FlagTracksSolvers(s) && w < |s.threads| && !s.threads[w].phase.Solved?
    requires t.threads == s.threads[w := th]
    requires t.found == (s.found || th.phase.Solved?)
    requires th.phase.Exited? ==> s.found
    ensures FlagTracksSolvers(t)
  {
    if th.phase.Solved? {
      assert t.threads[w].phase.Solved?;
    } else {
      SolvedUnchanged(s.threads, w, th);
    }
    forall v | 0 <= v < |t.threads| && t.threads[v].phase.Exited?
      ensures t.found
    {
      if v != w {
        assert t.threads[v] == s.threads[v];
      }
    }
  }

  /** Solvers stay correct when the replacing record is a correct solver or no solver. */
  lemma SolversAfterUpdate(p: Params, ts: seq<Thread>, w: nat, th: Thread)
    requires SolversCorrect(p, ts) && w < |ts|
    requires th.phase.Solved? ==> SolvedCorrectly(p, th.phase)
    ensures SolversCorrect(p, ts[w := th])
  {
    var u := ts[w := th];
    forall v | 0 <= v < |u| && u[v].phase.Solved?
      ensures SolvedCorrectly(p, u[v].phase)
    {
      if v != w {
        assert u[v] == ts[v];
      }
    }
  }

  lemma ClaimPreserves(p: Params, s: State, w: nat)
    requires Inv(p, s) && Enabled(s, Claim(w))
    ensures Inv(p, Apply(p, s, Claim(w)))
  {
    var th := s.threads[w].(phase := Scanning(s.slot.value));
    var t := s.(slot := None, threads := s.threads[w := th]);
    assert Apply(p, s, Claim(w)) == t;
    ClaimKeepsInv(p, s, w, th, t);
  }

  /** A waiting worker takes the staged batch and empties the slot. */
  lemma ClaimKeepsInv(p: Params, s: State, w: nat, th: Thread, t: State)
    requires Inv(p, s) && IsWaiting(s, w) && s.slot.Some? && !s.found
    requires th == s.threads[w].(phase := Scanning(s.slot.value))
    requires t == s.(slot := None, threads := s.threads[w := th])
    ensures Inv(p, t)
  {
    ThreadBatchesUpdate(s.threads, w, th);
    assert Live(t) == Live(s);
    assert Issuance(t) == Issuance(s);
    SameIssuance(s, t);
    InfosUpdate(s.threads, w, th);
    assert Accounted(t) && Counted(t);
    FlagAfterUpdate(s, t, w, th);
    SolversAfterUpdate(p, s.threads, w, th);
  }

  lemma ExitPreserves(p: Params, s: State, w: nat)
    requires Inv(p, s) && Enabled(s, Exit(w))
    ensures Inv(p, Apply(p, s, Exit(w)))
  {
    var th := s.threads[w].(phase := Exited);
    var t := s.(threads := s.threads[w := th]);
    assert Apply(p, s, Exit(w)) == t;
    ExitKeepsInv(p, s, w, th, t);
  }

  /** A waiting worker that sees the flag exits. */
  lemma ExitKeepsInv(p: Params, s: State, w: nat, th: Thread, t: State)
    requires Inv(p, s) && IsWaiting(s, w) && s.found
    requires th == s.threads[w].(phase := Exited)
    requires t == s.(threads := s.threads[w := th])
    ensures Inv(p, t)
  {
    ThreadBatchesUpdate(s.threads, w, th);
    assert Live(t) == Live(s);
    assert Issuance(t) == Issuance(s);
    SameIssuance(s, t);
    InfosUpdate(s.threads, w, th);
    assert Accounted(t) && Counted(t);
    FlagAfterUpdate(s, t, w, th);
    SolversAfterUpdate(p, s.threads, w, th);
  }

  /** The same generated batches at the same cursor stay issued and unique. */
  lemma SameIssuance(s: State, t: State)
    requires AllIssued(s) && Unique(s)
    requires Issuance(t) == Issuance(s) && t.cursor == s.cursor
    ensures AllIssued(t) && Unique(t)
  {
    forall c | c in Issuance(t)
      ensures Issued(c, t.cursor)
    {
      assert c in Issuance(s);
    }
  }

  /** A worker that finishes its batch without a match moves it from the live batches to the retired ones. */
  lemma MissDropsBatch(s: State, w: nat, th: Thread, t: State)
    requires w < |s.threads| && s.threads[w].phase.Scanning? && th.phase.Waiting?
    requires t == s.(threads := s.threads[w := th], retired := s.retired + multiset{s.threads[w].phase.batch})
    ensures Issuance(t) == Issuance(s)
    ensures |Live(t)| + 1 == |Live(s)| && |t.retired| == |s.retired| + 1
  {
    var b := s.threads[w].phase.batch;
    ThreadBatchesUpdate(s.threads, w, th);
    var held := ThreadBatches(s.threads);
    assert HeldBatches(s.threads[w]) == multiset{b} && HeldBatches(th) == multiset{};
    assert ThreadBatches(t.threads) == held - multiset{b};
    MoveOne(SlotBatches(s.slot) + ProducerBatches(s.producer), held, s.retired, b);
  }

  /** Moving one occurrence of `b` from `held` to `gone` keeps the total and shifts one from one side to the other. */
  lemma MoveOne(rest: multiset<Batch>, held: multiset<Batch>, gone: multiset<Batch>, b: Batch)
    requires b in held
    ensures rest + (held - multiset{b}) + (gone + multiset{b}) == rest + held + gone
    ensures |rest + (held - multiset{b})| + 1 == |rest + held|
    ensures |gone + multiset{b}| == |gone| + 1
  {
    assert held == (held - multiset{b}) + multiset{b};
  }

  /** A scan without a match: the batch is counted and retired. */
  lemma FinishMissPreserves(p: Params, s: State, w: nat)
    requires Inv(p, s) && Enabled(s, Finish(w))
    requires FirstMatch(p, s.threads[w].phase.batch).None?
    ensures Inv(p, Apply(p, s, Finish(w)))
  {
    var th := Thread(Waiting, s.threads[w].inversions + NONCES_PER_TASK);
    var t := MissStep(p, s, w);
    MissKeepsInv(p, s, w, th, t);
  }

  /** The state after a scan without a match, spelled out. */
  lemma MissStep(p: Params, s: State, w: nat) returns (t: State)
    requires Enabled(s, Finish(w)) && FirstMatch(p, s.threads[w].phase.batch).None?
    ensures t == Apply(p, s, Finish(w))
    ensures t == s.(threads := s.threads[w := Thread(Waiting, s.threads[w].inversions + NONCES_PER_TASK)],
                    retired := s.retired + multiset{s.threads[w].phase.batch})
  {
    t := Apply(p, s, Finish(w));
  }

  lemma MissKeepsInv(p: Params, s: State, w: nat, th: Thread, t: State)
    requires Inv(p, s) && w < |s.threads| && s.threads[w].phase.Scanning?
    requires th == Thread(Waiting, s.threads[w].inversions + NONCES_PER_TASK)
    requires t == s.(threads := s.threads[w := th], retired := s.retired + multiset{s.threads[w].phase.batch})
    ensures Inv(p, t)
  {
    MissDropsBatch(s, w, th, t);
    SameIssuance(s, t);
    MissAccounted(s, t, w, th);
    FlagAfterUpdate(s, t, w, th);
    SolversAfterUpdate(p, s.threads, w, th);
  }

  /** The 120 nonces leave the live batches, join the retired ones and the worker's count. */
  lemma MissAccounted(s: State, t: State, w: nat, th: Thread)
    requires Accounted(s) && Counted(s) && w < |s.threads|
    requires t.threads == s.threads[w := th] && t.cursor == s.cursor
    requires th.inversions == s.threads[w].inversions + NONCES_PER_TASK
    requires |Live(t)| + 1 == |Live(s)| && |t.retired| == |s.retired| + 1
    ensures Accounted(t) && Counted(t)
  {
    InfosUpdate(s.threads, w, th);
  }

  /** A scan with a match: the worker becomes a solver and the flag is raised. */
  lemma FinishHitPreserves(p: Params, s: State, w: nat)
    requires Inv(p, s) && Enabled(s, Finish(w))
    requires FirstMatch(p, s.threads[w].phase.batch).Some?
    ensures Inv(p, Apply(p, s, Finish(w)))
  {
    var b := s.threads[w].phase.batch;
    var th := s.threads[w].(phase := Solved(b, b[FirstMatch(p, b).value]));
    var t := s.(found := true, threads := s.threads[w := th]);
    assert Apply(p, s, Finish(w)) == t;
    KeepsBatch(s, t, w, th);
    FlagAfterUpdate(s, t, w, th);
    SolversAfterUpdate(p, s.threads, w, th);
  }

  /** A worker that keeps its batch and count leaves the live batches and the accounting as they were. */
  lemma KeepsBatch(s: State, t: State, w: nat, th: Thread)
    requires Aligned(s) && AllIssued(s) && Unique(s) && Accounted(s) && Counted(s) && StopJustified(s)
    requires w < |s.threads| && HeldBatches(th) == HeldBatches(s.threads[w])
    requires th.inversions == s.threads[w].inversions
    requires t == s.(found := t.found, threads := s.threads[w := th])
    requires s.found ==> t.found
    ensures Live(t) == Live(s)
    ensures Aligned(t) && AllIssued(t) && Unique(t) && Accounted(t) && Counted(t) && StopJustified(t)
  {
    ThreadBatchesUpdate(s.threads, w, th);
    assert Live(t) == Live(s);
    assert Issuance(t) == Issuance(s);
    SameIssuance(s, t);
    InfosUpdate(s.threads, w, th);
  }

  /** Every enabled step preserves the invariant. */
  lemma StepPreserves(p: Params, s: State, step: Step)
    requires Inv(p, s) && Enabled(s, step)
    ensures Inv(p, Apply(p, s, step))
  {
    match step
    case Fill => FillPreserves(p, s);
    case Stage => StagePreserves(p, s);
    case Abandon => AbandonPreserves(p, s);
    case Exhaust => ExhaustPreserves(p, s);
    case Claim(w) => ClaimPreserves(p, s, w);
    case Exit(w) => ExitPreserves(p, s, w);
    case Finish(w) =>
      if FirstMatch(p, s.threads[w].phase.batch).Some? {
        FinishHitPreserves(p, s, w);
      } else {
        FinishMissPreserves(p, s, w);
      }
  }

  /** Every state reachable from a state satisfying the invariant satisfies it. */
  lemma {:induction false} RunPreserves(p: Params, s: State, steps: seq<Step>)
    requires Inv(p, s) && Run(p, s, steps).Some?
    ensures Inv(p, Run(p, s, steps).value)
    decreases |steps|
  {
    if steps != [] {
      StepPreserves(p, s, steps[0]);
      RunPreserves(p, Apply(p, s, steps[0]), steps[1..]);
    }
  }

  /** Every state reachable from the start satisfies the invariant. */
  lemma ReachableInv(p: Params, n: nat, steps: seq<Step>)
    requires Run(p, Init(n), steps).Some?
    ensures Inv(p, Run(p, Init(n), steps).value)
  {
    InitInv(p, n);
    RunPreserves(p, Init(n), steps);
  }

  // ---------------------------------------------------------------------
  // Consequences
  // ---------------------------------------------------------------------

  /** Once raised, `solution_found` stays raised (nothing in mine.c clears it). */
  lemma {:induction false} FoundStays(p: Params, s: State, steps: seq<Step>)
    requires s.found && Run(p, s, steps).Some?
    ensures Run(p, s, steps).value.found
    decreases |steps|
  {
    if steps != [] {
      FoundStays(p, Apply(p, s, steps[0]), steps[1..]);
    }
  }

  /**
   * After a solution no batch is staged or claimed: the slot keeps what it
   * held and the workers' batches only drop away as scans finish.
   */
  lemma FrozenStep(p: Params, s: State, step: Step)
    requires s.found && Enabled(s, step)
    ensures step != Stage && !step.Claim?
    ensures Apply(p, s, step).found
    ensures Apply(p, s, step).slot == s.slot
    ensures ThreadBatches(Apply(p, s, step).threads) <= ThreadBatches(s.threads)
  {
    if step.Exit? || step.Finish? {
      var w := step.w;
      var th := Apply(p, s, step).threads[w];
      assert Apply(p, s, step).threads == s.threads[w := th];
      assert HeldBatches(th) <= HeldBatches(s.threads[w]);
      ThreadBatchesUpdate(s.threads, w, th);
    }
  }

  /** A run that succeeds takes its first step and runs the rest from there. */
  lemma RunFirst(p: Params, s: State, steps: seq<Step>)
    requires steps != [] && Run(p, s, steps).Some?
    ensures Enabled(s, steps[0])
    ensures Run(p, Apply(p, s, steps[0]), steps[1..]) == Run(p, s, steps)
  {
  }

  /** With the flag set, no step stages or claims, and the flag stays set. */
  lemma FoundStep(p: Params, s: State, step: Step)
    requires s.found && Enabled(s, step)
    ensures step != Stage && !step.Claim?
    ensures Apply(p, s, step).found
  {
  }

  /** The same over any run that starts after the solution. */
  lemma FrozenAfterFound(p: Params, s: State, steps: seq<Step>)
    requires s.found && Run(p, s, steps).Some?
    ensures forall i :: 0 <= i < |steps| ==> steps[i] != Stage && !steps[i].Claim?
    ensures Run(p, s, steps).value.slot == s.slot
    ensures ThreadBatches(Run(p, s, steps).value.threads) <= ThreadBatches(s.threads)
  {
    NoHandOffAfterFound(p, s, steps);
    HoldingsFrozen(p, s, steps);
  }

  lemma {:induction false} NoHandOffAfterFound(p: Params, s: State, steps: seq<Step>)
    requires s.found && Run(p, s, steps).Some?
    ensures forall i :: 0 <= i < |steps| ==> steps[i] != Stage && !steps[i].Claim?
    decreases |steps|
  {
    if steps != [] {
      RunFirst(p, s, steps);
      FoundStep(p, s, steps[0]);
      NoHandOffAfterFound(p, Apply(p, s, steps[0]), steps[1..]);
      forall i | 0 < i < |steps|
        ensures steps[i] != Stage && !steps[i].Claim?
      {
        assert steps[i] == steps[1..][i - 1];
      }
    }
  }

  lemma {:induction false} HoldingsFrozen(p: Params, s: State, steps: seq<Step>)
    requires s.found && Run(p, s, steps).Some?
    ensures Run(p, s, steps).value.slot == s.slot
    ensures ThreadBatches(Run(p, s, steps).value.threads) <= ThreadBatches(s.threads)
    decreases |steps|
  {
    if steps != [] {
      RunFirst(p, s, steps);
      FrozenStep(p, s, steps[0]);
      HoldingsFrozen(p, Apply(p, s, steps[0]), steps[1..]);
    }
  }

  /** The staged batch belongs to no worker. */
  lemma SlotNotHeld(p: Params, s: State, v: nat)
    requires Inv(p, s) && v < |s.threads|
    ensures s.slot.Some? && Holds(s.threads[v]) ==> s.threads[v].phase.batch != s.slot.value
  {
    ThreadBatchesUpdate(s.threads, v, s.threads[v]);
    if s.slot.Some? && Holds(s.threads[v]) {
      var b := s.threads[v].phase.batch;
      assert Live(s) == SlotBatches(s.slot) + ProducerBatches(s.producer) + ThreadBatches(s.threads);
      assert Live(s)[b] <= Issuance(s)[b] <= 1;
      assert HeldBatches(s.threads[v])[b] == 1;
    }
  }

  /** Two workers never hold the same batch, and the staged batch belongs to no worker. */
  lemma ExclusiveOwnership(p: Params, s: State, v: nat, w: nat)
    requires Inv(p, s) && v < w < |s.threads|
    ensures Holds(s.threads[v]) && Holds(s.threads[w]) ==> s.threads[v].phase.batch != s.threads[w].phase.batch
    ensures s.slot.Some? && Holds(s.threads[v]) ==> s.threads[v].phase.batch != s.slot.value
  {
    OwnedOnce(s, v, w);
  }

  lemma OwnedOnce(s: State, v: nat, w: nat)
    requires Unique(s) && v < w < |s.threads|
    ensures Holds(s.threads[v]) && Holds(s.threads[w]) ==> s.threads[v].phase.batch != s.threads[w].phase.batch
    ensures s.slot.Some? && Holds(s.threads[v]) ==> s.threads[v].phase.batch != s.slot.value
  {
    var held := ThreadBatches(s.threads);
    assert Live(s) == SlotBatches(s.slot) + ProducerBatches(s.producer) + held;
    ThreadBatchesPair(s.threads, v, w);
    if Holds(s.threads[v]) {
      var b := s.threads[v].phase.batch;
      assert Live(s)[b] <= Issuance(s)[b] <= 1;
      assert SlotBatches(s.slot)[b] + held[b] <= Live(s)[b];
      assert HeldBatches(s.threads[v])[b] == 1;
    }
  }

  /** Two workers scanning or holding batches at the same time share no nonce. */
  lemma ConcurrentScansApart(p: Params, s: State, v: nat, w: nat, n: nat)
    requires Inv(p, s) && v < w < |s.threads|
    requires Holds(s.threads[v]) && Holds(s.threads[w])
    ensures !(n in s.threads[v].phase.batch && n in s.threads[w].phase.batch)
  {
    ExclusiveOwnership(p, s, v, w);
    var a := s.threads[v].phase.batch;
    var b := s.threads[w].phase.batch;
    ThreadBatchesPair(s.threads, v, w);
    assert a in Live(s) && b in Live(s);
    IssuedDisjoint(a, b, s.cursor, n);
  }

  /**
   * Every batch whose hashing has begun was handed to a worker exactly once,
   * and two different such batches share no nonce.
   */
  lemma ScannedOnce(p: Params, s: State, a: Batch, b: Batch, n: nat)
    requires Inv(p, s) && a in Scanned(s) && b in Scanned(s)
    ensures Scanned(s)[a] == 1
    ensures a != b ==> !(n in a && n in b)
  {
    assert Issuance(s) == SlotBatches(s.slot) + ProducerBatches(s.producer) + Scanned(s);
    assert Scanned(s)[a] <= Issuance(s)[a] <= 1;
    if a != b {
      IssuedDisjoint(a, b, s.cursor, n);
    }
  }

  /** No step takes a batch out of the scanned ones: a finished scan moves its batch to the retired ones. */
  lemma StepScannedGrows(p: Params, s: State, step: Step)
    requires Enabled(s, step)
    ensures Scanned(s) <= Scanned(Apply(p, s, step))
  {
    var t := Apply(p, s, step);
    match step
    case Claim(w) =>
      assert t.threads == s.threads[w := t.threads[w]] && t.retired == s.retired;
      UpdateScanned(s, t, w, t.threads[w], multiset{});
    case Exit(w) =>
      assert t.threads == s.threads[w := t.threads[w]] && t.retired == s.retired;
      UpdateScanned(s, t, w, t.threads[w], multiset{});
    case Finish(w) =>
      if FirstMatch(p, s.threads[w].phase.batch).Some? {
        assert t.threads == s.threads[w := t.threads[w]] && t.retired == s.retired;
        UpdateScanned(s, t, w, t.threads[w], multiset{});
      } else {
        var u := MissStep(p, s, w);
        UpdateScanned(s, u, w, u.threads[w], HeldBatches(s.threads[w]));
      }
    case _ =>
  }

  /** Replacing worker `w` keeps every scanned batch when what it held is still held or retired. */
  lemma UpdateScanned(s: State, t: State, w: nat, th: Thread, gone: multiset<Batch>)
    requires w < |s.threads| && t.threads == s.threads[w := th] && t.retired == s.retired + gone
    requires HeldBatches(s.threads[w]) <= HeldBatches(th) + gone
    ensures Scanned(s) <= Scanned(t)
  {
    ThreadBatchesUpdate(s.threads, w, th);
  }

  /** The same along any run. */
  lemma {:induction false} RunScannedGrows(p: Params, s: State, steps: seq<Step>)
    requires Run(p, s, steps).Some?
    ensures Scanned(s) <= Scanned(Run(p, s, steps).value)
    decreases |steps|
  {
    if steps != [] {
      RunFirst(p, s, steps);
      StepScannedGrows(p, s, steps[0]);
      RunScannedGrows(p, Apply(p, s, steps[0]), steps[1..]);
    }
  }

  /**
   * No nonce is hashed twice along a run from the start, split anywhere into
   * a first part `done` and a rest `later`. A batch whose hashing began by
   * the split is, at the end, scanned exactly once, and two different
   * batches scanned by the end share no nonce.
   */
  lemma NoNonceTwice(p: Params, n: nat, done: seq<Step>, later: seq<Step>, a: Batch, b: Batch, x: nat)
    requires Run(p, Init(n), done).Some? && Run(p, Init(n), done + later).Some?
    ensures a in Scanned(Run(p, Init(n), done).value) ==> Scanned(Run(p, Init(n), done + later).value)[a] == 1
    ensures a in Scanned(Run(p, Init(n), done + later).value) && b in Scanned(Run(p, Init(n), done + later).value) && a != b
            ==> !(x in a && x in b)
  {
    var mid := Run(p, Init(n), done).value;
    RunConcat(p, Init(n), done, later);
    var last := Run(p, Init(n), done + later).value;
    RunScannedGrows(p, mid, later);
    ReachableInv(p, n, done + later);
    if a in Scanned(mid) {
      ScannedOnce(p, last, a, a, x);
    }
    if a in Scanned(last) && b in Scanned(last) {
      ScannedOnce(p, last, a, b, x);
    }
  }

  /** Two different issued batches share no nonce. */
  lemma IssuedDisjoint(a: Batch, b: Batch, cursor: nat, n: nat)
    requires Issued(a, cursor) && Issued(b, cursor) && a != b
    ensures !(n in a && n in b)
  {
    var j := a[0] / NONCES_PER_TASK;
    var k := b[0] / NONCES_PER_TASK;
    assert a[0] == NONCES_PER_TASK * j && b[0] == NONCES_PER_TASK * k;
    assert a == BatchAt(j) && b == BatchAt(k);
    BatchesDisjoint(j, k, n);
  }

  /**
   * The counts never exceed the nonces issued, which stay below 2^64, so the
   * `uint64_t` counters and the total in print_results never wrap.
   */
  lemma TotalFits(p: Params, s: State)
    requires Inv(p, s)
    ensures TotalInversions(Infos(s.threads)) <= s.cursor < TWO_64
    ensures forall w :: 0 <= w < |s.threads| ==> s.threads[w].inversions < TWO_64
  {
    assert TWO_64 % NONCES_PER_TASK == 16;
    forall w | 0 <= w < |s.threads|
      ensures s.threads[w].inversions < TWO_64
    {
      CountAtMostTotal(Infos(s.threads), w);
    }
  }

  /** print_results reports a solution exactly when the flag is set, and every reported nonce is a correct one. */
  lemma WinnersIffFound(p: Params, s: State)
    requires Inv(p, s)
    ensures s.found <==> |Winners(Infos(s.threads))| > 0
    ensures forall t :: t in Winners(Infos(s.threads)) ==> t.solution.Some? && Accepts(p, t.solution.value)
  {
    WinnersAreSolvers(p, s.threads);
  }

  /** The workers print_results reports are the solvers, and each holds an accepted nonce. */
  lemma WinnersAreSolvers(p: Params, ts: seq<Thread>)
    requires SolversCorrect(p, ts)
    ensures SomeSolved(ts) <==> |Winners(Infos(ts))| > 0
    ensures forall t :: t in Winners(Infos(ts)) ==> t.solution.Some? && Accepts(p, t.solution.value)
  {
    var infos := Infos(ts);
    if SomeSolved(ts) {
      var w :| 0 <= w < |ts| && ts[w].phase.Solved?;
      assert infos[w] in Winners(infos);
    }
    if |Winners(infos)| > 0 {
      assert Winners(infos)[0] in infos;
    }
    forall t | t in Winners(infos)
      ensures t.solution.Some? && Accepts(p, t.solution.value)
    {
      var w :| 0 <= w < |infos| && infos[w] == t;
      assert SolvedCorrectly(p, ts[w].phase);
    }
  }

  /**
   * A second solver is possible. The flag is only read before a claim, so a
   * worker already scanning when another raises it scans on and may record
   * a solution of its own (mine.c lines 243-282). At difficulty 0 every nonce
   * is accepted, and two workers that claim before either finishes both end
   * as solvers; print_results then prints two solutions.
   */
  lemma TwoSolvers(p: Params)
    requires p.mask == Mask(0)
    ensures Run(p, Init(2), BOTH_CLAIM + BOTH_FINISH).Some?
    ensures |Run(p, Init(2), BOTH_CLAIM + BOTH_FINISH).value.threads| == 2
    ensures Run(p, Init(2), BOTH_CLAIM + BOTH_FINISH).value.threads[0].phase.Solved?
    ensures Run(p, Init(2), BOTH_CLAIM + BOTH_FINISH).value.threads[1].phase.Solved?
  {
    var s6 := BothClaim(p);
    RunConcat(p, Init(2), BOTH_CLAIM, BOTH_FINISH);
    BothFinish(p, s6);
  }

  /** Both workers claim a batch: two rounds of fill, stage and claim. */
  const BOTH_CLAIM: seq<Step> := [Fill, Stage, Claim(0), Fill, Stage, Claim(1)]

  /** Both workers finish their scans, worker 0 first. */
  const BOTH_FINISH: seq<Step> := [Finish(0), Finish(1)]

  /** Running one list of steps and then another is running their concatenation. */
  lemma {:induction false} RunConcat(p: Params, s: State, a: seq<Step>, b: seq<Step>)
    requires Run(p, s, a).Some?
    ensures Run(p, s, a + b) == Run(p, Run(p, s, a).value, b)
    decreases |a|
  {
    if a == [] {
      assert a + b == b;
    } else {
      assert (a + b)[0] == a[0] && (a + b)[1..] == a[1..] + b;
      RunConcat(p, Apply(p, s, a[0]), a[1..], b);
    }
  }

  /** From the start, two workers can each claim a batch before either finishes. */
  lemma BothClaim(p: Params) returns (s6: State)
    ensures Run(p, Init(2), BOTH_CLAIM) == Some(s6)
    ensures |s6.threads| == 2 && s6.threads[0].phase.Scanning? && s6.threads[1].phase.Scanning?
  {
    var s0 := Init(2);
    var s1 := Apply(p, s0, Fill);
    var s2 := Apply(p, s1, Stage);
    var s3 := Apply(p, s2, Claim(0));
    assert CanGenerate(120);
    var s4 := Apply(p, s3, Fill);
    var s5 := Apply(p, s4, Stage);
    s6 := Apply(p, s5, Claim(1));
    assert Run(p, s5, [Claim(1)]) == Some(s6);
    assert Run(p, s4, [Stage, Claim(1)]) == Some(s6);
    assert Run(p, s3, [Fill, Stage, Claim(1)]) == Some(s6);
    assert Run(p, s2, [Claim(0), Fill, Stage, Claim(1)]) == Some(s6);
    assert Run(p, s1, [Stage, Claim(0), Fill, Stage, Claim(1)]) == Some(s6);
  }

  /** At difficulty 0, two scanning workers both finish as solvers. */
  lemma BothFinish(p: Params, s: State)
    requires p.mask == Mask(0)
    requires |s.threads| == 2 && s.threads[0].phase.Scanning? && s.threads[1].phase.Scanning?
    ensures Run(p, s, BOTH_FINISH).Some?
    ensures |Run(p, s, BOTH_FINISH).value.threads| == 2
    ensures Run(p, s, BOTH_FINISH).value.threads[0].phase.Solved?
    ensures Run(p, s, BOTH_FINISH).value.threads[1].phase.Solved?
  {
    ZeroDifficultyTakesFirst(p, s.threads[0].phase.batch);
    var s1 := Apply(p, s, Finish(0));
    ZeroDifficultyTakesFirst(p, s1.threads[1].phase.batch);
    var s2 := Apply(p, s1, Finish(1));
    assert Run(p, s1, [Finish(1)]) == Some(s2);
  }
}
