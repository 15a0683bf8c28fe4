/** Which closed files are never deleted. FinishPhase marks a file closed when its
    open failed or its close is done, but an exception, or a failed open, keeps it
    from being deleted then, and OnLoop only deletes it if it comes by once more. */
module FileLinger {
  import opened Queues
  import opened FilePhases
  import opened FileProtocol
  import opened FileSafety
  import opened FileOpens
  import opened FileDeletes
  import opened FileRuns
  import opened FileEnds

  /** Something will still come by to delete the file if it is closed. */
  predicate Leaving(s: State, f: nat)
    requires f in s.files
  {
    || s.files[f].stage == Done || f in s.loopQ || s.mode == Popped(f)
    || Doomed(s, f) || Deleting(s.mode, f)
  }

  /** Closed, and nothing will come by. */
  predicate Stuck(s: State, f: nat) { f in s.files && s.files[f].closed && !Leaving(s, f) }

  /** The step leaves a closed file with nothing to come by: FinishPhase notices that
      the open failed, or throws because the close failed without a callback, or the
      callback throws that the close waited for; and the data thread has posted the
      file, and the post has been taken from the loop queue. */
  predicate Strands(s: State, step: Step, f: nat) {
    && f in s.files && s.files[f].stage != Done && f !in s.loopQ
    && var x := s.files[f];
       || (step.Finish? && (s.mode.Popped? || s.mode.Check?) && s.mode.file == f && x.dataDone && x.failed
           && (x.phase == Opening || (x.phase == Closing && !x.call)))
       || (step.Throw? && s.frames != [] && s.frames[|s.frames| - 1] == Frame(f, true) && x.closed)
  }

  // ---- what is known of a file's phase ----------------------------------------------------------

  predicate EndOk(s: State, f: nat)
    requires f in s.files
  {
    var x := s.files[f];
    && x.op < |s.ops|
    && (x.Busy() ==> s.ops[x.op].kind == x.phase)
    && (x.closed ==> !x.Busy() && ((s.ops[x.op].kind == Opening && x.failed) || s.ops[x.op].kind == Closing))
    // The completion of an open is posted once.
    && (x.phase == Opening && (f in s.loopQ || s.mode == Popped(f)) ==> x.dataDone && x.stage != Done)
    && (x.phase == Opening && s.mode == Popped(f) ==> f !in s.loopQ)
    && (x.phase == Opening && (x.stage == Done || x.stage == Posted) ==> x.dataDone)
    // Nobody can close a file that is being opened.
    && (x.phase == Opening ==> !Doomed(s, f) && !Deleting(s.mode, f))
    // A synchronous wait that does not delete is not for a close.
    && ((s.mode == Check(f, false) || s.mode == Sleep(f, false)) ==> x.phase != Closing)
  }

  /** What is known of f before a step. */
  predicate Known(s: State, f: nat) { f in s.files ==> FileOk(s, f) && EndOk(s, f) }

  /** What is known of f after a step, and whether it is stuck. */
  predicate Kept(s: State, t: State, f: nat, strands: bool) {
    && (f in t.files ==> EndOk(t, f))
    && (Stuck(t, f) <==> Stuck(s, f) || strands)
  }

  lemma WorkerEnds(s: State, step: Step, f: nat)
    requires Shape(s) && Known(s, f) && Enabled(s, step) && (step.Stir? || step.Rest? || step.Doze?)
    ensures Kept(s, Next(s, step), f, false)
  {
    hide CanTake, Held, Distinct;
  }

  lemma TakeEnds(s: State, w: int, f: nat)
    requires Shape(s) && Known(s, f) && Enabled(s, Take(w))
    ensures Kept(s, TakeStep(s, w), f, false)
  {
    hide Distinct, DropAt;
    var k := FirstFree(s.q0, Held(s));
    var g := if k < |s.q0| then s.q0[k] else s.q1[FirstFree(s.q1, Held(s))];
    assert Queued(s, g);
  }

  lemma RunEnds(s: State, w: int, error: bool, f: nat)
    requires Known(s, f) && RunsAt(s, w, Entered)
    ensures Kept(s, RunStep(s, w, error), f, false)
  {}

  lemma PostEnds(s: State, w: int, f: nat)
    requires Known(s, f) && RunsAt(s, w, Done)
    ensures Kept(s, PostStep(s, w), f, false)
  {
    hide Append;
  }

  lemma ClearEnds(s: State, w: int, f: nat)
    requires Known(s, f) && RunsAt(s, w, Posted)
    ensures Kept(s, ClearStep(s, w), f, false)
  {}

  lemma OpenEnds(s: State, withCall: bool, sync: bool, f: nat)
    requires Shape(s) && Known(s, f) && s.mode.InJs? && !Doomed(s, s.created)
    ensures Kept(s, OpenStep(s, withCall, sync), f, false)
  {
    hide Append, Woken, Without, Distinct;
    assert s.created !in s.files && !Queued(s, s.created) && s.created !in s.loopQ;
  }

  lemma NewIsNotDoomed(s: State)
    requires Sound(s)
    ensures !Doomed(s, s.created)
  {
    hide Distinct, FileOk, WorkerOk, OpOk, AwakeOk, RefOk;
    assert Excess(s, s.created) <= 0;
  }

  lemma CallView(s: State, g: nat, p: Phase, withCall: bool)
    requires g in s.files && s.files[g].Accepts() && p != Ready
    ensures var t := ApiStep(s, g, p, withCall);
            && t.files == s.files[g := s.files[g].Accept(p, withCall, |s.ops|)] && t.loopQ == s.loopQ
            && t.frames == s.frames && t.mode == s.mode && t.ops == s.ops + [Op(g, p, withCall, 0, 0, 0, 0)]
  {
    hide Append, Woken;
  }

  lemma CallEnds(s: State, g: nat, p: Phase, withCall: bool, f: nat)
    requires Known(s, f) && s.mode.InJs? && Live(s, g) && p != Ready && p != Opening
    ensures Kept(s, ApiStep(s, g, p, withCall), f, false)
  {
    hide Begin, FileOk;
    if s.files[g].Accepts() { CallView(s, g, p, withCall); }
  }

  lemma AwaitEnds(s: State, g: nat, delete: bool, f: nat)
    requires Known(s, f) && (s.mode.InJs? || s.mode == Sleep(g, delete)) && g in s.files && !s.files[g].closed
    requires if delete then s.files[g].phase != Opening else s.mode.InJs? ==> s.files[g].phase != Closing
    ensures Kept(s, Await(s, g, delete), f, false)
  {
    hide Without;
  }

  lemma PopEnds(s: State, f: nat)
    requires Shape(s) && Known(s, f) && Enabled(s, Pop)
    ensures Kept(s, PopStep(s), f, false)
  {
    hide Distinct, DropAt;
  }

  /** At most one deletion of f is under way. */
  predicate OneOrder(s: State, f: nat) {
    && (Deleting(s.mode, f) ==> !Doomed(s, f))
    && (s.frames != [] && s.frames[|s.frames| - 1] == Frame(f, true) ==>
          Frame(f, true) !in s.frames[..|s.frames| - 1])
  }

  lemma SoundOrders(s: State, f: nat)
    requires Sound(s)
    ensures OneOrder(s, f) && (s.mode.Popped? ==> s.frames == [])
  {
    assert Excess(s, f) <= 0;
    if s.frames != [] { PopOrder(s, f); }
  }

  /** FinishPhase for another file. */
  lemma FinishOther(s: State, f: nat)
    requires Enabled(s, Finish) && Known(s, f) && s.mode.file != f
    ensures Kept(s, FinishStep(s), f, false)
  {
    hide FinishStep, Doomed;
    FinishDoomed(s, f);
    FinishApart(s, f);
  }

  /** What FinishPhase leaves alone. */
  lemma FinishApart(s: State, f: nat)
    requires Enabled(s, Finish) && s.mode.file != f
    ensures var t := FinishStep(s);
            && t.files.Keys == s.files.Keys && (f in s.files ==> t.files[f] == s.files[f]) && t.loopQ == s.loopQ
            && (t.mode.InJs? || t.mode.file == s.mode.file) && !t.mode.Popped?
            && |t.ops| == |s.ops| && forall k | 0 <= k < |t.ops| :: t.ops[k].kind == s.ops[k].kind
  {
    hide Without, Ended;
    EndedKinds(s, s.files[s.mode.file].op, s.files[s.mode.file].call);
  }

  lemma FramesStay(s: State, t: State, f: nat)
    requires Doomed(s, f) && s.frames <= t.frames
    ensures Doomed(t, f)
  {
    var i :| 0 <= i < |s.frames| && s.frames[i] == Frame(f, true);
    assert t.frames[i] == Frame(f, true);
  }

  lemma FinishDoomed(s: State, f: nat)
    requires Enabled(s, Finish) && s.mode.file != f
    ensures Doomed(FinishStep(s), f) <==> Doomed(s, f)
  {
    hide Without, Ended;
    if Doomed(s, f) { FramesStay(s, FinishStep(s), f); }
  }

  lemma EndedKinds(s: State, t: nat, call: bool)
    ensures var r := Ended(s.ops, t, call); |r| == |s.ops| && forall k | 0 <= k < |r| :: r[k].kind == s.ops[k].kind
  {}

  /** FinishPhase for the file itself. */
  lemma FinishSelf(s: State)
    requires Enabled(s, Finish) && FileOk(s, s.mode.file) && EndOk(s, s.mode.file)
    requires (s.mode.Popped? ==> s.frames == []) && OneOrder(s, s.mode.file)
    ensures Kept(s, FinishStep(s), s.mode.file, Strands(s, Finish, s.mode.file))
  {
    hide Without, Ended;
    var f, t := s.mode.file, FinishStep(s);
    EndedKinds(s, s.files[f].op, s.files[f].call);
    if t.frames != s.frames { assert t.frames[|s.frames|] in t.frames; }
  }

  lemma FinishEnds(s: State, f: nat)
    requires Enabled(s, Finish) && Known(s, f) && Known(s, s.mode.file)
    requires (s.mode.Popped? ==> s.frames == []) && OneOrder(s, f)
    ensures Kept(s, FinishStep(s), f, Strands(s, Finish, f))
  {
    hide Kept, FileOk, EndOk, FinishStep, OneOrder;
    if f == s.mode.file { FinishSelf(s); } else { FinishOther(s, f); }
  }

  lemma ReturnEnds(s: State, f: nat)
    requires Known(s, f) && Enabled(s, Return)
    ensures Kept(s, ReturnStep(s), f, false)
  {
    hide Without;
    var t, top := ReturnStep(s), s.frames[|s.frames| - 1];
    assert s.frames == t.frames + [top];
    assert Doomed(s, f) <==> Doomed(t, f) || top == Frame(f, true);
  }

  lemma ThrowEnds(s: State, f: nat)
    requires Known(s, f) && Enabled(s, Throw) && OneOrder(s, f)
    ensures Kept(s, ThrowStep(s), f, Strands(s, Throw, f))
  {
    var t, top := ThrowStep(s), s.frames[|s.frames| - 1];
    assert s.frames == t.frames + [top];
    assert Doomed(s, f) <==> Doomed(t, f) || top == Frame(f, true);
  }

  lemma DeleteEnds(s: State, f: nat)
    requires Known(s, f) && Enabled(s, Delete)
    ensures Kept(s, DeleteStep(s, s.mode.file), f, false)
  {
    hide Without;
  }

  lemma StepEnds(s: State, step: Step, f: nat)
    requires Sound(s) && Enabled(s, step) && (forall g | g in s.files :: EndOk(s, g))
    ensures Kept(s, Next(s, step), f, Strands(s, step, f))
  {
    hide EndOk, FileOk, WorkerOk, OpOk, AwakeOk, RefOk, Stuck, Distinct, Held, CanTake, Excess, OneOrder;
    assert Known(s, f);
    SoundOrders(s, f);
    match step
    case Open(withCall, sync) =>
      NewIsNotDoomed(s);
      OpenEnds(s, withCall, sync, f);
    case Api(g, p, withCall) => CallEnds(s, g, p, withCall, f);
    case WaitDone(g) =>
      LiveIsOpen(s, g);
      AwaitEnds(s, g, false, f);
    case CloseSync(g) => CloseEnds(s, g, f);
    case Take(w) => TakeEnds(s, w, f);
    case Run(w, error) => RunEnds(s, w, error, f);
    case Post(w) => PostEnds(s, w, f);
    case Clear(w) => ClearEnds(s, w, f);
    case Pop => PopEnds(s, f);
    case Finish => FinishEnds(s, f);
    case Wake =>
      SleepIsOpen(s);
      AwaitEnds(s, s.mode.file, s.mode.delete, f);
    case Return => ReturnEnds(s, f);
    case Throw => ThrowEnds(s, f);
    case Delete => DeleteEnds(s, f);
    case _ => WorkerEnds(s, step, f);
  }

  lemma LiveIsOpen(s: State, g: nat)
    requires FilesOk(s) && Live(s, g)
    ensures !s.files[g].closed && s.files[g].phase != Closing && s.files[g].phase != Opening
  {
    assert FileOk(s, g);
  }

  lemma SleepIsOpen(s: State)
    requires FilesOk(s) && StackOk(s) && s.mode.Sleep? && (s.mode.file in s.files ==> EndOk(s, s.mode.file))
    ensures s.mode.file in s.files && !s.files[s.mode.file].closed
    ensures s.mode.delete ==> s.files[s.mode.file].phase != Opening
  {
    assert FileOk(s, s.mode.file);
  }

  lemma CloseEnds(s: State, g: nat, f: nat)
    requires Inv(s) && Enabled(s, CloseSync(g)) && (forall h | h in s.files :: EndOk(s, h))
    ensures Kept(s, CloseStep(s, g), f, false)
  {
    hide EndOk, FileOk, WorkerOk, OpOk, AwakeOk, RefOk, StackOk, Shape, Stuck, ApiStep, Await;
    var t := ApiStep(s, g, Closing, false);
    LiveIsOpen(s, g);
    KeepsApi(s, g, Closing, false);
    StillOpen(s, g);
    assert Known(s, f);
    CallEnds(s, g, Closing, false, f);
    assert f in t.files ==> FileOk(t, f);
    AwaitEnds(t, g, true, f);
  }

  lemma StillOpen(s: State, g: nat)
    requires g in s.files && !s.files[g].closed && s.files[g].phase != Opening
    ensures var t := ApiStep(s, g, Closing, false);
            t.files.Keys == s.files.Keys && !t.files[g].closed && t.files[g].phase != Opening
  {
    hide Append, Woken;
  }

  // ---- whole runs -----------------------------------------------------------------------------------

  predicate EndsOk(s: State) { forall f | f in s.files :: EndOk(s, f) }

  predicate Stranded(s: State, steps: seq<Step>, f: nat)
    requires Legal(s, steps)
    decreases |steps|
  {
    steps != [] && (Strands(s, steps[0], f) || Stranded(Next(s, steps[0]), steps[1..], f))
  }

  lemma KeepsEnds(s: State, step: Step)
    requires Sound(s) && EndsOk(s) && Enabled(s, step)
    ensures EndsOk(Next(s, step))
  {
    hide Sound, EndOk, Next, Enabled;
    forall f | f in Next(s, step).files ensures EndOk(Next(s, step), f) { StepEnds(s, step, f); }
  }

  /** A file is stuck if and only if some step has stranded it. */
  lemma {:induction false} RunSticks(s: State, steps: seq<Step>, f: nat)
    requires Sound(s) && EndsOk(s) && Legal(s, steps) && CarefulRun(s, steps)
    ensures Sound(Play(s, steps)) && EndsOk(Play(s, steps))
    ensures Stuck(Play(s, steps), f) <==> Stuck(s, f) || Stranded(s, steps, f)
    decreases |steps|
  {
    hide Sound, EndOk, Enabled, Next, Careful, Stuck, Strands;
    if steps != [] {
      StepEnds(s, steps[0], f);
      KeepsSound(s, steps[0]);
      KeepsEnds(s, steps[0]);
      RunSticks(Next(s, steps[0]), steps[1..], f);
    }
  }

  lemma RestIsNotLeaving(s: State, f: nat)
    requires Sound(s) && f in s.files
    ensures Resting(s) ==> !Leaving(s, f)
  {
    hide Distinct, OpOk, AwakeOk, RefOk, Excess;
    if Resting(s) {
      SoundFindsAll(s);
      RestIsQuiet(s);
      assert FileOk(s, f);
      AllWait(s);
    }
  }

  lemma InitialEnds(s: State)
    requires Initial(s)
    ensures EndsOk(s)
  {}

  /** The main result, for every careful run: a stranded file stays for good; and
      when the threads have come to rest, the closed files that still exist are
      exactly the stranded ones. The open of such a file failed, or it was closed. */
  lemma ClosedStaysExactly(s: State, steps: seq<Step>, f: nat)
    requires Initial(s) && Legal(s, steps) && CarefulRun(s, steps)
    ensures var e := Play(s, steps);
            && (Stranded(s, steps, f) ==> f in e.files && e.files[f].closed)
            && (Resting(e) ==> (f in e.files && e.files[f].closed <==> Stranded(s, steps, f)))
            && (f in e.files && e.files[f].closed ==>
                  && e.files[f].op < |e.ops|
                  && var kind := e.ops[e.files[f].op].kind; (kind == Opening && e.files[f].failed) || kind == Closing)
  {
    InitialSound(s);
    InitialEnds(s);
    RunSticks(s, steps, f);
    var e := Play(s, steps);
    hide Play, Legal, CarefulRun, Stranded, Resting, Leaving, Sound;
    if f in e.files {
      RestIsNotLeaving(e, f);
      assert EndOk(e, f);
    }
  }

  /** An asynchronous open that fails always strands its file. */
  lemma AsyncOpenStrands(s: State)
    requires EndsOk(s) && Enabled(s, Finish) && s.mode.Popped?
    requires var x := s.files[s.mode.file]; x.phase == Opening && x.failed
    ensures Strands(s, Finish, s.mode.file)
  {
    assert EndOk(s, s.mode.file);
  }
}
