/**
 * Start-up in `main` (mine.c lines 72-98) after argument parsing: the mask
 * from the difficulty, the refusal of empty block data, the worker count
 * with its fallback of 5, and the initial hand-off state.
 */
module Setup {
  import opened Wrappers
  import opened Bits
  import opened Worker
  import opened Protocol
  import opened Safety

  /** Workers requested on the command line when at least one, else 5. */
  function WorkerCount(requested: int): nat
  {
    if requested < 1 then 5 else requested
  }

  /**
   * The run's parameters and initial state, or `None` when the block data is
   * empty (the program exits with an error before starting any thread).
   */
  function Launch(requested: int, diff: nat, data: string, sha1: string -> Digest): (r: Option<(Params, State)>)
    ensures r.None? <==> data == []
    ensures r.Some? ==> r.value.0.data == data && r.value.0.mask == Mask(diff)
    ensures r.Some? ==> |r.value.1.threads| >= 1
    ensures r.Some? && requested >= 1 ==> |r.value.1.threads| == requested
    ensures r.Some? && requested < 1 ==> |r.value.1.threads| == 5
    ensures r.Some? ==> Inv(r.value.0, r.value.1)
  {
    if data == [] then None
    else
      var p := Params(data, Mask(diff), sha1);
      InitInv(p, WorkerCount(requested));
      Some((p, Init(WorkerCount(requested))))
  }
}
