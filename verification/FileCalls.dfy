/** The steps of the code thread keep the invariant: API calls, the event loop,
    FinishPhase, the synchronous waits and deletion. */
module FileCalls {
  import opened Queues
  import opened FilePhases
  import opened FileProtocol
  import opened FileSafety

  // ---- steps that change no file ------------------------------------------------

  /** A new mode and stack over unchanged files. */
  lemma MoveKeeps(s: State, t: State)
    requires Inv(s) && t == s.(loopQ := t.loopQ, mode := t.mode, frames := t.frames)
    requires Shape(t) && StackOk(t) && AwakeOk(t) && (forall f | f in s.files :: FileOk(t, f))
    ensures Inv(t)
  {
    forall i | 0 <= i < |t.workers| ensures WorkerOk(t, i) { assert WorkerOk(s, i); }
    hide WorkerOk, FileOk, Shape, StackOk, AwakeOk, OpOk, RefOk;
    BooksByView(s, t);
  }

  lemma AwaitFile(s: State, f: nat, delete: bool, g: nat)
    requires g in s.files && FileOk(s, g) && !s.mode.Drain? && (forall h :: Looking(s, h) ==> h == f)
    ensures FileOk(Await(s, f, delete), g)
  {
    hide Without;
  }

  lemma AwaitShape(s: State, f: nat, delete: bool)
    requires Shape(s)
    ensures Shape(Await(s, f, delete))
  {
    hide Without, Distinct;
  }

  /** Leaving the loop queue is safe when FinishPhase is looked at next. */
  lemma KeepsAwait(s: State, f: nat, delete: bool)
    requires Inv(s) && f in s.files && (s.mode.InJs? || s.mode == Sleep(f, delete))
    ensures Inv(Await(s, f, delete))
  {
    var t := Await(s, f, delete);
    AwaitShape(s, f, delete);
    assert t == s.(loopQ := t.loopQ, mode := t.mode);
    hide FileOk, Shape, Await;
    assert t.mode == Check(f, delete) by { AwaitMode(s, f, delete); }
    forall g | g in s.files ensures FileOk(t, g) { assert FileOk(s, g); AwaitFile(s, f, delete, g); }
    MoveKeeps(s, t);
  }

  lemma AwaitMode(s: State, f: nat, delete: bool)
    ensures Await(s, f, delete).mode == Check(f, delete)
  {}

  lemma PopFile(s: State, g: nat)
    requires g in s.files && FileOk(s, g) && s.mode.InJs? && s.loopQ != []
    ensures FileOk(PopStep(s), g)
  {
    hide DropAt;
  }

  lemma PopShape(s: State)
    requires Shape(s) && s.loopQ != []
    ensures Shape(PopStep(s)) && s.loopQ[0] in s.files
  {
    assert s.loopQ[0] in s.loopQ;
    hide DropAt, Distinct;
  }

  lemma KeepsPop(s: State)
    requires Inv(s) && s.mode.InJs? && s.frames == [] && s.loopQ != []
    ensures Inv(PopStep(s))
  {
    var t := PopStep(s);
    PopShape(s);
    hide FileOk, Shape, DropAt;
    forall g | g in s.files ensures FileOk(t, g) { assert FileOk(s, g); PopFile(s, g); }
    MoveKeeps(s, t);
  }

  lemma DozeFile(s: State, g: nat)
    requires g in s.files && FileOk(s, g) && s.mode.Drain?
    ensures FileOk(s.(mode := Drain(s.mode.file, true)), g)
  {}

  /** ~LowFile only goes to sleep while a worker runs the file. */
  lemma KeepsDoze(s: State)
    requires Inv(s) && s.mode.Drain? && s.mode.file in Held(s)
    ensures Inv(s.(mode := Drain(s.mode.file, true)))
  {
    var t := s.(mode := Drain(s.mode.file, true));
    assert FileOk(s, s.mode.file);
    assert s.workers[s.files[s.mode.file].runner].Runs?;
    hide FileOk, Shape;
    forall g | g in s.files ensures FileOk(t, g) { assert FileOk(s, g); DozeFile(s, g); }
    MoveKeeps(s, t);
  }

  // ---- deletion ----------------------------------------------------------------

  lemma BeginDeleteFile(s: State, u: State, f: nat, g: nat)
    requires Unqueued(s, u, f) && g in s.files && FileOk(s, g)
    requires s.mode.InJs? || Looking(s, f)
    ensures FileOk(u.(mode := Drain(f, false)), g)
  {
    hide Shape;
  }

  lemma KeepsBeginDelete(s: State, f: nat)
    requires Inv(s) && (s.mode.InJs? || Looking(s, f))
    ensures Inv(BeginDelete(s, f))
  {
    var u := s.(q0 := Without(s.q0, f), q1 := Without(s.q1, f));
    var t := BeginDelete(s, f);
    WithoutBoth(s, f);
    assert t == u.(mode := Drain(f, false));
    hide FileOk, BeginDelete, Without;
    forall g | g in s.files ensures FileOk(t, g) { assert FileOk(s, g); BeginDeleteFile(s, u, f, g); }
    forall i | 0 <= i < |t.workers| ensures WorkerOk(t, i) { assert WorkerOk(s, i); }
    hide WorkerOk, OpOk, RefOk;
    BooksByView(s, t);
    DrainStack(s, t, f);
    hide StackOk;
  }

  lemma DrainStack(s: State, t: State, f: nat)
    requires StackOk(s) && SameBooks(s, t) && t.frames == s.frames && t.mode == Drain(f, false)
    ensures StackOk(t)
  {}

  lemma DeleteFile(s: State, f: nat, g: nat)
    requires s.mode.Drain? && s.mode.file == f && f in s.files && f !in Held(s)
    requires g in s.files && g != f && FileOk(s, g)
    ensures FileOk(DeleteStep(s, f), g)
  {
    hide Without, Dropped;
    DroppedParts(s.ops, s.files[f].op);
  }

  lemma DroppedParts(ops: seq<Op>, t: nat)
    ensures var r := Dropped(ops, t);
            |r| == |ops| && forall k | 0 <= k < |ops| ::
              r[k] == if k == t then ops[k].(drops := ops[k].drops + 1) else ops[k]
  {}

  lemma DeleteShape(s: State, f: nat)
    requires Shape(s) && f in s.files && FileOk(s, f) && s.mode.Drain? && s.mode.file == f
    ensures Shape(DeleteStep(s, f))
  {
    hide Without, Distinct;
    assert !Queued(s, f);
  }

  lemma DeleteOp(s: State, f: nat, k: int)
    requires Shape(s) && s.mode.Drain? && s.mode.file == f && f in s.files && FileOk(s, f)
    requires 0 <= k < |s.ops| && OpOk(s, k)
    ensures OpOk(DeleteStep(s, f), k)
  {
    hide Without, Distinct, Dropped;
    DroppedParts(s.ops, s.files[f].op);
  }

  lemma DeleteWorker(s: State, f: nat, i: int)
    requires f in s.files && f !in Held(s) && FileOk(s, f) && IsWorker(s, i) && WorkerOk(s, i)
    ensures WorkerOk(DeleteStep(s, f), i)
  {}

  lemma DeleteView(s: State, f: nat)
    requires f in s.files
    ensures var t := DeleteStep(s, f);
            && t.workers == s.workers && t.q0 == s.q0 && t.q1 == s.q1 && t.mode == InJs && |t.ops| == |s.ops|
            && t.files == s.files - {f} && t.base == s.base && t.runRef == s.runRef - if s.files[f].call then 1 else 0
  {}

  /** ~LowFile. */
  lemma KeepsDelete(s: State, f: nat)
    requires Inv(s) && s.mode.Drain? && s.mode.file == f && f in s.files && f !in Held(s)
    ensures Inv(DeleteStep(s, f))
  {
    var t := DeleteStep(s, f);
    assert FileOk(s, f);
    DeleteView(s, f);
    CallingLess(s.files, f);
    DeleteShape(s, f);
    hide DeleteStep, FileOk, Shape, StackOk, WorkerOk, OpOk, Held, Calling;
    forall g | g in t.files ensures FileOk(t, g) { assert FileOk(s, g); DeleteFile(s, f, g); }
    forall i | 0 <= i < |t.workers| ensures WorkerOk(t, i) { assert WorkerOk(s, i); DeleteWorker(s, f, i); }
    forall k | 0 <= k < |t.ops| ensures OpOk(t, k) { assert OpOk(s, k); DeleteOp(s, f, k); }
  }

  // ---- FinishPhase ----------------------------------------------------------------

  lemma EndedParts(ops: seq<Op>, t: nat, call: bool)
    ensures var r := Ended(ops, t, call);
            |r| == |ops| && forall k | 0 <= k < |ops| ::
              r[k] == if k == t then ops[k].(ends := ops[k].ends + 1, calls := ops[k].calls + if call then 1 else 0)
                      else ops[k]
  {}

  predicate Finishing(s: State, f: nat) {
    f in s.files && s.files[f].Busy() && s.files[f].dataDone && (s.mode.InJs? || Looking(s, f))
  }

  lemma EndFile(s: State, f: nat, g: nat)
    requires Finishing(s, f) && FileOk(s, f) && g in s.files && FileOk(s, g)
    ensures FileOk(EndPhase(s, f), g)
  {
    hide Ended;
    EndedParts(s.ops, s.files[f].op, s.files[f].call);
  }

  lemma EndOp(s: State, f: nat, k: int)
    requires Finishing(s, f) && FileOk(s, f) && 0 <= k < |s.ops| && OpOk(s, k)
    ensures OpOk(EndPhase(s, f), k)
  {
    hide Ended;
    EndedParts(s.ops, s.files[f].op, s.files[f].call);
  }

  lemma EndStack(s: State, f: nat)
    requires Finishing(s, f) && FileOk(s, f) && StackOk(s)
    ensures StackOk(EndPhase(s, f))
  {
    hide Ended;
    EndedParts(s.ops, s.files[f].op, s.files[f].call);
  }

  lemma EndView(s: State, f: nat)
    requires Finishing(s, f)
    ensures var t := EndPhase(s, f);
            && t == s.(files := t.files, ops := t.ops, runRef := t.runRef, mode := InJs)
            && t.files == s.files[f := s.files[f].Finished()] && |t.ops| == |s.ops|
            && t.runRef == s.runRef - (if s.files[f].call then 1 else 0)
  {}

  lemma KeepsEnd(s: State, f: nat)
    requires Inv(s) && Finishing(s, f)
    ensures Inv(EndPhase(s, f))
  {
    var t := EndPhase(s, f);
    assert FileOk(s, f);
    EndView(s, f);
    EndStack(s, f);
    CallingSet(s.files, f, s.files[f].Finished());
    assert Shape(t) && AwakeOk(t);
    hide EndPhase, FileOk, Shape, StackOk, OpOk, Calling, Distinct;
    forall i | 0 <= i < |t.workers| ensures WorkerOk(t, i) { assert WorkerOk(s, i); }
    hide WorkerOk;
    forall g | g in t.files ensures FileOk(t, g) { assert FileOk(s, g); EndFile(s, f, g); }
    forall k | 0 <= k < |t.ops| ensures OpOk(t, k) { assert OpOk(s, k); EndOp(s, f, k); }
  }

  lemma KeepsMode(s: State, f: nat)
    requires Inv(s) && Looking(s, f) && f in s.files && !(s.files[f].Busy() && s.files[f].dataDone)
    ensures Inv(s.(mode := InJs))
    ensures s.files[f].Busy() && s.mode.Check? ==> Inv(s.(mode := Sleep(f, s.mode.delete)))
  {
    ModeFiles(s, f, InJs);
    MoveKeeps(s, s.(mode := InJs));
    if s.files[f].Busy() && s.mode.Check? {
      var m := Sleep(f, s.mode.delete);
      ModeFiles(s, f, m);
      MoveKeeps(s, s.(mode := m));
    }
  }

  lemma ModeFiles(s: State, f: nat, m: Mode)
    requires FilesOk(s) && Looking(s, f) && f in s.files && !(s.files[f].Busy() && s.files[f].dataDone) && !m.Drain?
    ensures forall g | g in s.files :: FileOk(s.(mode := m), g)
  {
    forall g | g in s.files ensures FileOk(s.(mode := m), g) { assert FileOk(s, g); }
  }

  lemma PushKeeps(s: State, f: nat, delete: bool)
    requires Inv(s) && s.mode.InJs? && f in s.files
    ensures Inv(s.(frames := s.frames + [Frame(f, delete)]))
  {
    hide OpOk, WorkerOk, RefOk, Distinct;
    var t := s.(frames := s.frames + [Frame(f, delete)]);
    forall g | g in s.files ensures FileOk(t, g) { assert FileOk(s, g); }
    MoveKeeps(s, t);
  }

  /** FinishPhase and what follows it, whoever called it. */
  lemma KeepsFinishIn(s: State, f: nat, delete: bool, loop: bool)
    requires Inv(s) && f in s.files && Looking(s, f)
    requires if loop then s.mode.Popped? && (delete ==> s.files[f].Busy()) else s.mode == Check(f, delete)
    ensures Inv(FinishIn(s, f, delete, loop))
  {
    var x := s.files[f];
    if x.Busy() && x.dataDone {
      KeepsEnd(s, f);
      EndView(s, f);
      var t := EndPhase(s, f);
      hide EndPhase, Inv;
      if x.call {
        PushKeeps(t, f, delete);
      } else if delete && !Raises(x) {
        KeepsBeginDelete(t, f);
      }
    } else {
      KeepsMode(s, f);
      hide Inv;
      if !x.Busy() && delete {
        KeepsBeginDelete(s.(mode := InJs), f);
      }
    }
  }

  lemma KeepsFinish(s: State)
    requires Inv(s) && Enabled(s, Finish)
    ensures Inv(FinishStep(s))
  {
    var f := s.mode.file;
    assert FileOk(s, f);
    if s.mode.Check? {
      KeepsFinishIn(s, f, s.mode.delete, false);
    } else if s.files[f].closed {
      KeepsBeginDelete(s, f);
    } else {
      KeepsFinishIn(s, f, s.files[f].phase == Closing, true);
    }
  }

  lemma PopFrame(s: State)
    requires Inv(s) && s.mode.InJs? && s.frames != []
    ensures Inv(ThrowStep(s))
  {
    var t := s.(frames := s.frames[..|s.frames| - 1]);
    forall g | g in s.files ensures FileOk(t, g) { assert FileOk(s, g); }
    hide FileOk, Shape;
    MoveKeeps(s, t);
  }

  lemma KeepsReturn(s: State)
    requires Inv(s) && s.mode.InJs? && s.frames != []
    ensures Inv(ReturnStep(s))
  {
    var top := s.frames[|s.frames| - 1];
    var t := s.(frames := s.frames[..|s.frames| - 1]);
    PopFrame(s);
    hide Inv;
    if top.delete {
      KeepsBeginDelete(t, top.file);
    } else {
      assert t.(mode := InJs) == t;
    }
  }
}
