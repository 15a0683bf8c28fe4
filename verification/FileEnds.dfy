/** How operations and files end in a run of the protocol: which operations are
    dropped, and what a closeSync inside a closeSync does. */
module FileEnds {
  import opened Queues
  import opened FilePhases
  import opened FileProtocol
  import opened FileSafety
  import opened FileOpens
  import opened FileDeletes
  import opened FileRuns

  // ---- dropped operations ----------------------------------------------------------------

  /** ~LowFile is at work on the file that the operation is pending on. */
  predicate Dying(s: State, t: int) {
    s.mode.Drain? && var f := s.mode.file; f in s.files && s.files[f].Busy() && s.files[f].op == t
  }

  predicate Lost(s: State, t: int) { (0 <= t < |s.ops| && s.ops[t].drops >= 1) || Dying(s, t) }

  /** The callback returns that a closeSync has been waiting for, while the
      operation is pending on the file. */
  predicate Cuts(s: State, step: Step, t: int) {
    && step.Return? && s.frames != []
    && var top := s.frames[|s.frames| - 1];
       top.delete && top.file in s.files && s.files[top.file].Busy() && s.files[top.file].op == t
  }

  predicate WasCut(s: State, steps: seq<Step>, t: int)
    requires Legal(s, steps)
    decreases |steps|
  {
    steps != [] && (Cuts(s, steps[0], t) || WasCut(Next(s, steps[0]), steps[1..], t))
  }

  lemma DeleteLost(s: State, t: int)
    requires Inv(s) && Enabled(s, Delete)
    ensures Lost(DeleteStep(s, s.mode.file), t) <==> Lost(s, t)
  {
    hide Shape, WorkerOk, OpOk, AwakeOk, RefOk, Without;
    assert FileOk(s, s.mode.file);
  }

  lemma FinishLost(s: State, t: int)
    requires Inv(s) && Enabled(s, Finish)
    ensures Lost(FinishStep(s), t) <==> Lost(s, t)
  {
    hide Shape, WorkerOk, OpOk, AwakeOk, RefOk, Without;
    assert FileOk(s, s.mode.file);
  }

  lemma RunLost(s: State, w: int, error: bool, t: int)
    requires RunsAt(s, w, Entered)
    ensures Lost(RunStep(s, w, error), t) <==> Lost(s, t)
  {}

  lemma StartLost(s: State, w: int, t: int)
    requires IsWorker(s, w) && CanTake(s)
    ensures Lost(TakeStep(s, w), t) <==> Lost(s, t)
  {
    hide DropAt, FirstFree, CanTake, Held;
  }

  lemma PostLost(s: State, w: int, t: int)
    requires RunsAt(s, w, Done)
    ensures Lost(PostStep(s, w), t) <==> Lost(s, t)
  {
    hide Append;
  }

  lemma CallLost(s: State, f: nat, p: Phase, withCall: bool, t: int)
    requires s.mode.InJs? && f in s.files && p != Ready
    ensures Lost(ApiStep(s, f, p, withCall), t) <==> Lost(s, t)
  {
    hide Append, Woken;
  }

  lemma OpenLost(s: State, withCall: bool, sync: bool, t: int)
    requires s.mode.InJs?
    ensures Lost(OpenStep(s, withCall, sync), t) <==> Lost(s, t)
  {
    hide Append, Woken, Without;
  }

  /** One step: an operation is lost by being cut, and in no other way. */
  lemma StepLost(s: State, step: Step, t: int)
    requires Inv(s) && Enabled(s, step)
    ensures Lost(Next(s, step), t) <==> Lost(s, t) || Cuts(s, step, t)
  {
    match step
    case Open(withCall, sync) => OpenLost(s, withCall, sync, t);
    case Api(f, p, withCall) => CallLost(s, f, p, withCall, t);
    case CloseSync(f) => CallLost(s, f, Closing, false, t);
    case Take(w) => StartLost(s, w, t);
    case Run(w, error) => RunLost(s, w, error, t);
    case Post(w) => PostLost(s, w, t);
    case Finish => FinishLost(s, t);
    case Delete => DeleteLost(s, t);
    case _ => OtherLost(s, step, t);
  }

  lemma OtherLost(s: State, step: Step, t: int)
    requires Enabled(s, step)
    requires step.WaitDone? || step.Stir? || step.Rest? || step.Clear? || step.Pop? || step.Wake? || step.Return?
        || step.Throw? || step.Doze?
    ensures Lost(Next(s, step), t) <==> Lost(s, t) || Cuts(s, step, t)
  {
    hide DropAt, Without, CanTake, Held;
  }

  lemma {:induction false} RunLoses(s: State, steps: seq<Step>, t: int)
    requires Inv(s) && Legal(s, steps)
    ensures Lost(Play(s, steps), t) <==> Lost(s, t) || WasCut(s, steps, t)
    decreases |steps|
  {
    hide Inv, Enabled, Next, Lost, Cuts;
    if steps != [] {
      StepLost(s, steps[0], t);
      KeepsStep(s, steps[0]);
      RunLoses(Next(s, steps[0]), steps[1..], t);
    }
  }

  /** The main result: after any run that has come to rest and does not delete what
      is gone, every accepted operation has been run once, finished once, and answered once
      if it came with a callback; except exactly those that were pending on their
      file when the callback returned that a closeSync of the file was waiting for.
      These have been dropped and are never answered. */
  lemma EveryOperationEnds(s: State, steps: seq<Step>, t: int)
    requires Initial(s) && Legal(s, steps) && Resting(Play(s, steps)) && !DeletesAgain(Play(s, steps))
    requires 0 <= t < |Play(s, steps).ops|
    ensures var o := Play(s, steps).ops[t];
            if WasCut(s, steps, t) then o.drops == 1 && o.ends == 0 && o.calls == 0 && o.runs <= 1
            else o.drops == 0 && o.ends == 1 && o.runs == 1 && o.calls == if o.withCall then 1 else 0
  {
    AlwaysInv(s, steps);
    InitialSound(s);
    RunLoses(s, steps, t);
    var e := Play(s, steps);
    RestIsQuiet(e);
    hide Play, Legal, WasCut;
    assert OpOk(e, t);
  }

  /** Cut once, an operation is dropped whatever happens afterwards. */
  lemma CutIsDropped(s: State, steps: seq<Step>, f: nat)
    requires Inv(s) && s.mode.InJs? && s.frames != [] && s.frames[|s.frames| - 1] == Frame(f, true)
    requires f in s.files && s.files[f].Busy()
    requires var u := Next(s, Return); Legal(u, steps) && Resting(Play(u, steps))
    ensures var o := s.files[f].op; var e := Play(Next(s, Return), steps);
            o < |e.ops| && e.ops[o].drops == 1 && e.ops[o].calls == 0
  {
    hide Inv, Next, Lost, Cuts, Enabled, WasCut;
    ReturnCuts(s, f);
    var u, t := Next(s, Return), s.files[f].op;
    KeepsStep(s, Return);
    StepLost(s, Return, t);
    RunLoses(u, steps, t);
    KeepsInv(u, steps);
    LostAtRest(Play(u, steps), t);
  }

  lemma ReturnCuts(s: State, f: nat)
    requires s.mode.InJs? && s.frames != [] && s.frames[|s.frames| - 1] == Frame(f, true)
    requires f in s.files && s.files[f].Busy()
    ensures Enabled(s, Return) && Cuts(s, Return, s.files[f].op)
  {}

  lemma LostAtRest(e: State, t: int)
    requires Inv(e) && Resting(e) && Lost(e, t)
    ensures 0 <= t < |e.ops| && e.ops[t].drops == 1 && e.ops[t].calls == 0
  {
    AllWait(e);
    RestIsIdle(e);
    assert !Enabled(e, Delete) && !Enabled(e, Doze);
    assert OpOk(e, t);
  }

  // ---- a closeSync inside a closeSync ----------------------------------------------------------

  /** An exception gets in the way of a deletion of the file. */
  predicate Spared(s: State, steps: seq<Step>, f: nat)
    requires Legal(s, steps)
    decreases |steps|
  {
    steps != [] && (Spares(s, steps[0], f) || Spared(Next(s, steps[0]), steps[1..], f))
  }

  /** No step brings in a file but open, under a new id. */
  lemma FilesGrow(s: State, step: Step)
    requires Enabled(s, step)
    ensures var t := Next(s, step); t.created >= s.created && t.files.Keys <= s.files.Keys + {s.created}
    ensures !step.Open? ==> Next(s, step).files.Keys <= s.files.Keys
  {
    hide Append, Without, DropAt, Woken, Ended, Ran, Dropped, CanTake, Held, FirstFree;
    match step
    case Open(_, _) =>
    case Finish => FinishFiles(s);
    case _ =>
  }

  lemma FinishFiles(s: State)
    requires Enabled(s, Finish)
    ensures FinishStep(s).files.Keys == s.files.Keys && FinishStep(s).created == s.created
  {
    hide Without, Ended;
  }

  lemma {:induction false} ExcessStays(s: State, f: nat, steps: seq<Step>)
    requires Legal(s, steps) && !Spared(s, steps, f) && f < s.created && Excess(s, f) >= 1
    ensures Excess(Play(s, steps), f) >= 1
    decreases |steps|
  {
    hide Enabled, Next, Excess, Spares, Begins;
    if steps != [] {
      ExcessStep(s, steps[0], f);
      FilesGrow(s, steps[0]);
      ExcessStays(Next(s, steps[0]), f, steps[1..]);
    }
  }

  /** A file that is to be deleted twice is deleted when it is gone, whatever the
      schedule and whatever else is called, unless an exception gets in the way. */
  lemma TwiceDeletes(s: State, f: nat, steps: seq<Step>)
    requires Inv(s) && f < s.created && Excess(s, f) >= 1
    requires Legal(s, steps) && !Spared(s, steps, f) && Resting(Play(s, steps))
    ensures DeletesAgain(Play(s, steps))
  {
    hide Inv, Legal, Play, Spared, Resting;
    KeepsInv(s, steps);
    ExcessStays(s, f, steps);
    var e := Play(s, steps);
    if !DeletesAgain(e) { RestIsQuiet(e); }
  }

  /** That is not undone by anything. */
  lemma {:induction false} StaysDeleting(s: State, steps: seq<Step>)
    requires DeletesAgain(s) && Legal(s, steps)
    ensures DeletesAgain(Play(s, steps))
    decreases |steps|
  {
    hide Enabled, Next, DeletesAgain;
    if steps != [] {
      GoneStays(s, steps[0]);
      StaysDeleting(Next(s, steps[0]), steps[1..]);
    }
  }

  lemma GoneStays(s: State, step: Step)
    requires DeletesAgain(s) && Enabled(s, step)
    ensures DeletesAgain(Next(s, step))
  {
    hide Append, DropAt, FirstFree, CanTake, Held, Ran;
  }

  /** At most one deletion too many is under way, and only of f. */
  ghost predicate Nearly(s: State, f: nat) {
    Inv(s) && Excess(s, f) <= 1 && forall g: nat | g != f :: Excess(s, g) <= 0
  }

  lemma KeepsNearly(s: State, step: Step, f: nat)
    requires Nearly(s, f) && Enabled(s, step) && Careful(s, step)
    ensures Nearly(Next(s, step), f) && (Spares(s, step, f) ==> Sound(Next(s, step)))
  {
    hide Inv, Next, Enabled, Begins, Spares, Excess, Careful;
    KeepsStep(s, step);
    forall g: nat | g != f ensures Excess(Next(s, step), g) <= 0 { StaysGood(s, step, g); }
    OneLess(s, step, f);
  }

  lemma OneLess(s: State, step: Step, f: nat)
    requires Inv(s) && Excess(s, f) <= 1 && Enabled(s, step) && Careful(s, step)
    ensures Excess(Next(s, step), f) <= if Spares(s, step, f) then 0 else 1
  {
    hide Inv, Excess, Doomed, OpenStep, Next;
    if step.Open? && f == s.created {
      OpenExcess(s, step.withCall, step.sync);
      assert Next(s, step) == OpenStep(s, step.withCall, step.sync) by { NextOpen(s, step); }
    } else {
      ExcessStep(s, step, f);
      if Begins(s, step, f) { BeginsSafely(s, step, f); }
    }
  }

  lemma NextOpen(s: State, step: Step)
    requires Enabled(s, step) && step.Open?
    ensures Next(s, step) == OpenStep(s, step.withCall, step.sync)
  {}

  lemma {:induction false} SparedIsSound(s: State, f: nat, steps: seq<Step>)
    requires Nearly(s, f) && Legal(s, steps) && CarefulRun(s, steps) && Spared(s, steps, f)
    ensures Sound(Play(s, steps))
    decreases |steps|
  {
    hide Nearly, Sound, Enabled, Next, Careful, Spares;
    KeepsNearly(s, steps[0], f);
    if Spares(s, steps[0], f) {
      KeepsRunning(Next(s, steps[0]), steps[1..]);
    } else {
      SparedIsSound(Next(s, steps[0]), f, steps[1..]);
    }
  }

  /** Exactly when a closeSync leads to the deletion of a file that is gone, once the
      threads have come to rest: when it is called inside the callback that another
      deletion of the same file waits for, and neither of the two is stopped by an
      exception, such as the one that reports that the close failed. */
  lemma CloseSyncExactly(s: State, f: nat, steps: seq<Step>)
    requires Sound(s) && Enabled(s, CloseSync(f))
    requires var u := Next(s, CloseSync(f)); Legal(u, steps) && CarefulRun(u, steps) && Resting(Play(u, steps))
    ensures var u := Next(s, CloseSync(f));
            DeletesAgain(Play(u, steps)) <==> Doomed(s, f) && !Spared(u, steps, f)
  {
    hide Inv, Enabled, Next, Doomed, DeletesAgain, Excess, Legal, Play, CarefulRun, Spared, Resting;
    var u := Next(s, CloseSync(f));
    assert Excess(s, f) <= 0;
    KeepsStep(s, CloseSync(f));
    if !Doomed(s, f) {
      KeepsSound(s, CloseSync(f));
      KeepsRunning(u, steps);
      SoundFindsAll(Play(u, steps));
    } else {
      CloseExcess(s, f);
      if Spared(u, steps, f) {
        SparedIsSound(u, f, steps);
        SoundFindsAll(Play(u, steps));
      } else {
        TwiceDeletes(u, f, steps);
      }
    }
  }

  lemma CloseExcess(s: State, f: nat)
    requires Sound(s) && Doomed(s, f) && Enabled(s, CloseSync(f))
    ensures var u := Next(s, CloseSync(f)); Nearly(u, f) && Excess(u, f) == 1 && f < u.created
  {
    KeepsStep(s, CloseSync(f));
    FilesGrow(s, CloseSync(f));
    assert f in s.files && Excess(s, f) == 0;
    hide Inv, Next, Enabled, Excess;
    forall g: nat ensures Excess(Next(s, CloseSync(f)), g) == Excess(s, g) + if g == f then 1 else 0 {
      ExcessStep(s, CloseSync(f), g);
    }
  }
}
