/** Accepting an operation keeps the invariant: the constructor of LowFile and
    Read, Write, FStat, Close. */
module FileOpens {
  import opened Queues
  import opened FilePhases
  import opened FileProtocol
  import opened FileSafety
  import opened FileCalls

  /** u is s with a new operation begun on f, which is yet to be queued. */
  ghost predicate NewOp(s: State, u: State, f: nat, call: bool) {
    && f in u.files
    && u == s.(files := s.files[f := u.files[f]], created := u.created, ops := u.ops, runRef := u.runRef)
    && u.created == (if f in s.files then s.created else s.created + 1) && (f !in s.files ==> f == s.created)
    && u.ops == s.ops + [Op(f, u.files[f].phase, call, 0, 0, 0, 0)]
    && u.runRef == s.runRef + (if call then 1 else 0)
    && var y := u.files[f];
       && y.Busy() && !y.dataDone && !y.closed && y.call == call && y.op == |s.ops|
       && (y.phase in {Opening, Closing} ==> !y.advertised)
       && (if f in s.files then !s.files[f].Busy() && y.stage == s.files[f].stage && y.runner == s.files[f].runner
           else y.stage == Idle && y.runner == -1)
  }

  /** r is u with f queued, and everybody woken if f can be run. */
  ghost predicate Submitted(u: State, r: State, f: nat) {
    && f in u.files && r == u.(q0 := r.q0, q1 := r.q1, workers := r.workers)
    && Queued(r, f) && (forall g | g != f :: Queued(r, g) <==> Queued(u, g))
    && |r.workers| == |u.workers|
    && (forall i | 0 <= i < |u.workers| ::
          r.workers[i] == u.workers[i] || (u.workers[i].Waiting? && r.workers[i].Awake?))
    && (u.files[f].stage == Idle ==> forall i | 0 <= i < |u.workers| :: !r.workers[i].Waiting?)
    && Shape(r)
  }

  lemma SetDataView(u: State, f: nat, priority: int)
    requires Shape(u) && f in u.files && !Queued(u, f)
    ensures Submitted(u, SetData(u, f, priority), f)
  {
    hide Distinct, Append;
  }

  lemma NewShape(s: State, u: State, f: nat, call: bool)
    requires Shape(s) && NewOp(s, u, f, call) && (f in s.files ==> FileOk(s, f))
    ensures Shape(u) && !Queued(u, f)
  {
    hide Distinct;
  }

  lemma NewFile(s: State, u: State, r: State, f: nat, call: bool, g: nat)
    requires NewOp(s, u, f, call) && Submitted(u, r, f) && s.mode.InJs?
    requires f in s.files ==> FileOk(s, f)
    requires g in r.files && (g in s.files ==> FileOk(s, g))
    ensures FileOk(r, g)
  {
    hide Shape;
  }

  lemma NewWorker(s: State, u: State, r: State, f: nat, call: bool, i: int)
    requires NewOp(s, u, f, call) && Submitted(u, r, f) && 0 <= i < |s.workers| && WorkerOk(s, i)
    ensures WorkerOk(r, i)
  {
    hide Shape, Queued;
  }

  lemma NewOps(s: State, u: State, r: State, f: nat, call: bool, k: int)
    requires Shape(s) && NewOp(s, u, f, call) && Submitted(u, r, f)
    requires 0 <= k < |r.ops| && (k < |s.ops| ==> OpOk(s, k))
    ensures OpOk(r, k)
  {
    hide Queued, Distinct;
  }

  lemma NewStack(s: State, u: State, r: State, f: nat, call: bool)
    requires StackOk(s) && NewOp(s, u, f, call) && Submitted(u, r, f) && s.mode.InJs?
    ensures StackOk(r)
  {
    hide Shape, Queued;
  }

  lemma NewAwake(s: State, u: State, r: State, f: nat, call: bool)
    requires Shape(s) && NewOp(s, u, f, call) && Submitted(u, r, f) && (f in s.files ==> FileOk(s, f))
    ensures AwakeOk(r)
  {
    hide Queued, Distinct;
    var y := u.files[f];
    if y.stage == Idle {
      assert !r.workers[0].Waiting?;
    } else {
      assert s.workers[y.runner] == Runs(f);
      assert !r.workers[y.runner].Waiting?;
    }
  }

  lemma KeepsNew(s: State, u: State, r: State, f: nat, call: bool)
    requires Inv(s) && s.mode.InJs? && NewOp(s, u, f, call) && Submitted(u, r, f)
    ensures Inv(r) && r.mode.InJs? && r.frames == s.frames && f in r.files
  {
    assert f in s.files ==> FileOk(s, f);
    NewAwake(s, u, r, f, call);
    NewStack(s, u, r, f, call);
    CallingSet(s.files, f, u.files[f]);
    assert RefOk(r);
    assert |r.workers| == |s.workers| && |r.ops| == |s.ops| + 1 && r.files.Keys == s.files.Keys + {f} && Shape(r);
    hide NewOp, Submitted, FileOk, WorkerOk, OpOk, StackOk, AwakeOk, RefOk, Shape;
    forall i | 0 <= i < |r.workers| ensures WorkerOk(r, i) { assert WorkerOk(s, i); NewWorker(s, u, r, f, call, i); }
    forall g | g in r.files ensures FileOk(r, g) {
      assert g in s.files ==> FileOk(s, g);
      NewFile(s, u, r, f, call, g);
    }
    forall k | 0 <= k < |r.ops| ensures OpOk(r, k) {
      assert k < |s.ops| ==> OpOk(s, k);
      NewOps(s, u, r, f, call, k);
    }
  }

  lemma InvParts(s: State, f: nat)
    requires Inv(s)
    ensures Shape(s) && (f in s.files ==> FileOk(s, f)) && s.created !in s.files
  {}

  /** A new operation, queued. */
  lemma KeepsSubmit(s: State, u: State, f: nat, call: bool, priority: int)
    requires Inv(s) && s.mode.InJs? && NewOp(s, u, f, call)
    ensures var r := SetData(u, f, priority); Inv(r) && r.mode.InJs? && r.frames == s.frames && f in r.files
  {
    hide Inv, Submitted, SetData, Shape, FileOk;
    InvParts(s, f);
    NewShape(s, u, f, call);
    assert f in u.files;
    SetDataView(u, f, priority);
    KeepsNew(s, u, SetData(u, f, priority), f, call);
  }

  lemma KeepsApi(s: State, f: nat, p: Phase, withCall: bool)
    requires Inv(s) && s.mode.InJs? && Live(s, f) && p != Ready && p != Opening
    ensures var t := ApiStep(s, f, p, withCall); Inv(t) && t.mode.InJs? && t.frames == s.frames && f in t.files
  {
    hide Inv, Shape, SetData;
    InvParts(s, f);
    if s.files[f].Accepts() {
      var u := s.(files := s.files[f := s.files[f].Accept(p, withCall, |s.ops|)],
                  ops := s.ops + [Op(f, p, withCall, 0, 0, 0, 0)],
                  runRef := s.runRef + if withCall then 1 else 0);
      assert NewOp(s, u, f, withCall);
      KeepsSubmit(s, u, f, withCall, PriorityOf(p));
    }
  }

  lemma KeepsOpen(s: State, withCall: bool, sync: bool)
    requires Inv(s) && s.mode.InJs?
    ensures Inv(OpenStep(s, withCall, sync))
  {
    hide Inv, Shape, FileOk, SetData, Await;
    var f := s.created;
    var call := withCall && !sync;
    var u := s.(files := s.files[f := Opened(call, |s.ops|)], created := f + 1,
                ops := s.ops + [Op(f, Opening, call, 0, 0, 0, 0)],
                runRef := s.runRef + if call then 1 else 0);
    InvParts(s, f);
    assert NewOp(s, u, f, call);
    KeepsSubmit(s, u, f, call, 0);
    if sync {
      KeepsAwait(SetData(u, f, 0), f, false);
    }
  }

  lemma KeepsClose(s: State, f: nat)
    requires Inv(s) && s.mode.InJs? && Live(s, f)
    ensures Inv(CloseStep(s, f))
  {
    KeepsApi(s, f, Closing, false);
    hide Inv, ApiStep, Await;
    KeepsAwait(ApiStep(s, f, Closing, false), f, true);
  }

  lemma KeepsWait(s: State)
    requires Inv(s) && s.mode.Sleep?
    ensures Inv(Await(s, s.mode.file, s.mode.delete))
  {
    KeepsAwait(s, s.mode.file, s.mode.delete);
  }

  /** Every step of every thread keeps the invariant. */
  lemma KeepsStep(s: State, step: Step)
    requires Inv(s) && Enabled(s, step)
    ensures Inv(Next(s, step))
  {
    hide Inv, OpenStep, ApiStep, Await, CloseStep, StirStep, TakeStep, RestStep, RunStep, PostStep, ClearStep, PopStep,
        FinishStep, ReturnStep, ThrowStep, DeleteStep, CanTake, Held;
    match step
    case Open(withCall, sync) => KeepsOpen(s, withCall, sync);
    case Api(f, p, withCall) => KeepsApi(s, f, p, withCall);
    case WaitDone(f) => KeepsAwait(s, f, false);
    case CloseSync(f) => KeepsClose(s, f);
    case Stir(w) => KeepsStir(s, w);
    case Take(w) => KeepsTake(s, w);
    case Rest(w) => KeepsRest(s, w);
    case Run(w, error) => KeepsRun(s, w, error);
    case Post(w) => KeepsPost(s, w);
    case Clear(w) => KeepsClear(s, w);
    case Pop => KeepsPop(s);
    case Finish => KeepsFinish(s);
    case Wake => KeepsWait(s);
    case Return => KeepsReturn(s);
    case Throw => PopFrame(s);
    case Doze => KeepsDoze(s);
    case Delete => KeepsDelete(s, s.mode.file);
  }
}
