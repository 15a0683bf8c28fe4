/** openSync, closeSync and waitdone wait: JavaScript does not go on before the
    operation that is waited for has ended. */
module FileWaits {
  import opened Queues
  import opened FilePhases
  import opened FileProtocol
  import opened FileSafety
  import opened FileRuns

  /** The operation has been finished, or has died with its file. */
  predicate Over(s: State, t: int) { 0 <= t < |s.ops| && (s.ops[t].ends >= 1 || s.ops[t].drops >= 1) }

  /** The code thread waits for the file, which is busy with the operation. */
  predicate WaitsFor(s: State, f: nat, t: int) {
    && (s.mode.Check? || s.mode.Sleep?) && s.mode.file == f
    && f in s.files && s.files[f].Busy() && s.files[f].op == t && 0 <= t < |s.ops|
  }

  lemma FinishWaits(s: State, f: nat, t: int)
    requires WaitsFor(s, f, t) && Enabled(s, Finish)
    ensures WaitsFor(FinishStep(s), f, t) || Over(FinishStep(s), t)
  {
    hide Without;
  }

  lemma WorkerWaits(s: State, step: Step, f: nat, t: int)
    requires WaitsFor(s, f, t) && Enabled(s, step) && !step.Finish?
    ensures WaitsFor(Next(s, step), f, t)
  {
    hide Without, Append, DropAt, FirstFree, CanTake, Held, Woken;
  }

  lemma StaysOver(s: State, step: Step, t: int)
    requires Over(s, t) && Enabled(s, step)
    ensures Over(Next(s, step), t)
  {
    hide Without, Append, DropAt, FirstFree, CanTake, Held, Woken;
  }

  lemma {:induction false} WaitsOrOver(s: State, steps: seq<Step>, f: nat, t: int)
    requires Legal(s, steps) && (WaitsFor(s, f, t) || Over(s, t))
    ensures WaitsFor(Play(s, steps), f, t) || Over(Play(s, steps), t)
    decreases |steps|
  {
    hide WaitsFor, Over, Next, Enabled;
    if steps != [] {
      if Over(s, t) { StaysOver(s, steps[0], t); }
      else if steps[0].Finish? { OneFinish(s, f, t); }
      else { WorkerWaits(s, steps[0], f, t); }
      WaitsOrOver(Next(s, steps[0]), steps[1..], f, t);
    }
  }

  lemma OneFinish(s: State, f: nat, t: int)
    requires WaitsFor(s, f, t) && Enabled(s, Finish)
    ensures WaitsFor(Next(s, Finish), f, t) || Over(Next(s, Finish), t)
  {
    FinishWaits(s, f, t);
  }

  /** The file and the operation that a call waits for, if it waits. */
  predicate Calls(s: State, step: Step, f: nat, t: int) {
    match step
    case Open(_, sync) => sync && f == s.created && t == |s.ops|
    case WaitDone(g) => f == g && f in s.files && s.files[f].Busy() && s.files[f].op == t
    case CloseSync(g) =>
      && f == g && f in s.files
      && if s.files[f].Busy() then s.files[f].op == t else !s.files[f].closed && t == |s.ops|
    case _ => false
  }

  lemma CallWaits(s: State, step: Step, f: nat, t: int)
    requires Inv(s) && Enabled(s, step) && Calls(s, step, f, t)
    ensures WaitsFor(Next(s, step), f, t)
  {
    assert f in s.files ==> FileOk(s, f);
    hide Inv, Without, Append, Woken;
  }

  /** In every run, from such a call on: whenever JavaScript or the event loop goes on,
      the operation is over. */
  lemma ReturnsWhenOver(s: State, before: seq<Step>, step: Step, f: nat, t: int, steps: seq<Step>)
    requires Initial(s) && Legal(s, before)
    requires Enabled(Play(s, before), step) && Calls(Play(s, before), step, f, t)
    requires Legal(Next(Play(s, before), step), steps)
    ensures var e := Play(Next(Play(s, before), step), steps); e.mode.InJs? ==> Over(e, t)
  {
    AlwaysInv(s, before);
    hide Play, Legal, Inv, Calls, Enabled, Next;
    CallWaits(Play(s, before), step, f, t);
    WaitsOrOver(Next(Play(s, before), step), steps, f, t);
  }
}
