/**
 * print_results (mine.c lines 292-307) without the printing: which workers
 * report a solution, and the total number of hashes, accumulated in a
 * `uint64_t`.
 */
module Report {
  import opened Wrappers
  import opened Nonces

  /** The per-worker record `struct thread_info`, less the pthread handle and the hex digest. */
  datatype ThreadInfo = ThreadInfo(id: nat, inversions: nat, solution: Option<Nonce>)

  /** The exact sum of the workers' counts. */
  function TotalInversions(threads: seq<ThreadInfo>): nat
  {
    if threads == [] then 0 else TotalInversions(threads[..|threads| - 1]) + threads[|threads| - 1].inversions
  }

  /** The workers that report a solution, in thread order. */
  function Winners(threads: seq<ThreadInfo>): (w: seq<ThreadInfo>)
    ensures |w| <= |threads|
    ensures forall t :: t in w <==> t in threads && t.solution.Some?
  {
    if threads == [] then []
    else
      var last := threads[|threads| - 1];
      var front := Winners(threads[..|threads| - 1]);
      assert threads == threads[..|threads| - 1] + [last];
      if last.solution.Some? then front + [last] else front
  }

  /**
   * The loop at mine.c lines 296-303: lists every worker holding a solution
   * and adds up the counts modulo 2^64, as `total_inversions += ...` does.
   */
  method PrintResults(threads: seq<ThreadInfo>) returns (winners: seq<ThreadInfo>, total: Nonce)
    ensures winners == Winners(threads)
    ensures total == TotalInversions(threads) % TWO_64
    ensures TotalInversions(threads) < TWO_64 ==> total == TotalInversions(threads)
  {
    winners := [];
    total := 0;
    for i := 0 to |threads|
      invariant winners == Winners(threads[..i])
      invariant total == TotalInversions(threads[..i]) % TWO_64
    {
      PrefixStep(threads, i);
      ModAddStep(TotalInversions(threads[..i]), threads[i].inversions);
      if threads[i].solution.Some? {
        winners := winners + [threads[i]];
      }
      total := (total + threads[i].inversions) % TWO_64;
    }
    assert threads[..|threads|] == threads;
  }

  /** Extending a prefix by one worker extends the winners and the total by that worker. */
  lemma PrefixStep(threads: seq<ThreadInfo>, i: nat)
    requires i < |threads|
    ensures Winners(threads[..i + 1]) == Winners(threads[..i]) + (if threads[i].solution.Some? then [threads[i]] else [])
    ensures TotalInversions(threads[..i + 1]) == TotalInversions(threads[..i]) + threads[i].inversions
  {
    assert threads[..i + 1][..i] == threads[..i];
  }

  /** The total of a concatenation is the sum of the totals. */
  lemma {:induction false} TotalAppend(a: seq<ThreadInfo>, b: seq<ThreadInfo>)
    ensures TotalInversions(a + b) == TotalInversions(a) + TotalInversions(b)
    decreases |b|
  {
    if b != [] {
      var c := b[..|b| - 1];
      assert (a + b)[..|a + b| - 1] == a + c;
      TotalAppend(a, c);
    } else {
      assert a + b == a;
    }
  }

  /** Changing one worker's count changes the total by the same amount. */
  lemma TotalUpdate(threads: seq<ThreadInfo>, i: nat, t: ThreadInfo)
    requires i < |threads|
    ensures TotalInversions(threads[i := t]) + threads[i].inversions == TotalInversions(threads) + t.inversions
  {
    var pre := threads[..i];
    var post := threads[i + 1..];
    assert threads == pre + [threads[i]] + post;
    assert threads[i := t] == pre + [t] + post;
    TotalAppend(pre + [threads[i]], post);
    TotalAppend(pre + [t], post);
    TotalAppend(pre, [threads[i]]);
    TotalAppend(pre, [t]);
    assert TotalInversions([threads[i]]) == threads[i].inversions by {
      assert [threads[i]][..0] == [];
    }
    assert TotalInversions([t]) == t.inversions by {
      assert [t][..0] == [];
    }
  }

  /** No single worker's count exceeds the total. */
  lemma {:induction false} CountAtMostTotal(threads: seq<ThreadInfo>, i: nat)
    requires i < |threads|
    ensures threads[i].inversions <= TotalInversions(threads)
    decreases |threads|
  {
    if i < |threads| - 1 {
      CountAtMostTotal(threads[..|threads| - 1], i);
    }
  }
}
