/** What every step of the protocol keeps. */
module FileSafety {
  import opened Queues
  import opened FilePhases
  import opened FileProtocol

  // ---- the invariant -----------------------------------------------------------

  /** Queues hold existing files, each at most once over both data queues. */
  predicate Shape(s: State) {
    && Distinct(s.q0) && Distinct(s.q1) && Distinct(s.loopQ)
    && (forall f | f in s.q0 :: f in s.files && f !in s.q1)
    && (forall f | f in s.q1 :: f in s.files)
    && (forall f | f in s.loopQ :: f in s.files)
    && (forall f | f in s.files :: f < s.created)
    && |s.workers| > 0
  }

  predicate Draining(s: State, f: nat) { s.mode.Drain? && s.mode.file == f }

  predicate Looking(s: State, f: nat) { (s.mode.Popped? || s.mode.Check?) && s.mode.file == f }

  /** The heart: work is queued only when it is owed, and owed work is never lost. */
  predicate FileOk(s: State, f: nat)
    requires f in s.files
  {
    var x := s.files[f];
    && (Queued(s, f) ==> x.Busy() && !x.dataDone && x.stage != Entered && !Draining(s, f))
    && (x.stage == Entered ==> x.Busy() && !x.dataDone)
    && (x.Busy() && !x.dataDone && !Draining(s, f) ==> Queued(s, f) || x.stage == Entered)
    && (x.Busy() && x.dataDone && !Draining(s, f) ==> f in s.loopQ || x.stage == Done || Looking(s, f))
    && (!x.Busy() ==> !x.call)
    && (x.closed ==> !x.Busy() && !x.advertised)
    && (x.Busy() && x.phase in {Opening, Closing} ==> !x.advertised)
    && (x.stage != Idle <==> IsWorker(s, x.runner) && s.workers[x.runner] == Runs(f))
    && (x.Busy() ==> x.op < |s.ops| && s.ops[x.op].owner == f && s.ops[x.op].withCall == x.call)
  }

  predicate WorkerOk(s: State, w: int)
    requires IsWorker(s, w)
  {
    s.workers[w].Runs? ==>
      var f := s.workers[w].file;
      f in s.files && s.files[f].runner == w
  }

  /** The operation is the one its file is busy with. */
  predicate Pending(s: State, t: int)
    requires 0 <= t < |s.ops|
  {
    var f := s.ops[t].owner;
    f in s.files && s.files[f].Busy() && s.files[f].op == t
  }

  predicate OpOk(s: State, t: int)
    requires 0 <= t < |s.ops|
  {
    var o := s.ops[t];
    && o.owner < s.created
    && (Pending(s, t) ==>
          && o.ends == 0 && o.calls == 0 && o.drops == 0
          && o.runs == if s.files[o.owner].dataDone then 1 else 0)
    && (!Pending(s, t) ==>
          || (o.ends == 1 && o.runs == 1 && o.drops == 0 && o.calls == if o.withCall then 1 else 0)
          || (o.ends == 0 && o.runs <= 1 && o.drops == 1 && o.calls == 0))
  }

  /** What the code thread looks at or waits for exists. */
  predicate StackOk(s: State) {
    && (s.mode.Popped? || s.mode.Check? || s.mode.Sleep? ==> s.mode.file in s.files)
    && (s.mode.Popped? ==> s.frames == [])
    && (s.mode.Sleep? ==> s.files[s.mode.file].Busy())
  }

  /** No stall: if every worker waits, nothing is queued and no destructor sleeps. */
  predicate AwakeOk(s: State) {
    (forall i | 0 <= i < |s.workers| :: s.workers[i].Waiting?) ==>
      s.q0 == [] && s.q1 == [] && !(s.mode.Drain? && s.mode.asleep)
  }

  function Calling(files: map<nat, File>): set<nat> { set f | f in files && files[f].call }

  predicate RefOk(s: State) { s.runRef == s.base + |Calling(s.files)| }

  predicate FilesOk(s: State) { forall f | f in s.files :: FileOk(s, f) }

  predicate WorkersOk(s: State) { forall w | 0 <= w < |s.workers| :: WorkerOk(s, w) }

  predicate OpsOk(s: State) { forall t | 0 <= t < |s.ops| :: OpOk(s, t) }

  predicate Inv(s: State) {
    Shape(s) && FilesOk(s) && WorkersOk(s) && OpsOk(s) && StackOk(s) && AwakeOk(s) && RefOk(s)
  }

  // ---- what does not depend on the data threads ------------------------------------

  /** The same files up to the data thread they are on. */
  predicate SameFiles(s: State, t: State) {
    && t.files.Keys == s.files.Keys
    && forall f | f in s.files :: t.files[f] == s.files[f].(stage := t.files[f].stage, runner := t.files[f].runner)
  }

  predicate SameMode(a: Mode, b: Mode) { a == b || (a.Drain? && b.Drain? && a.file == b.file) }

  /** Stack, operations and reference count of s and t are the same. */
  predicate SameBooks(s: State, t: State) {
    && SameFiles(s, t) && t.created == s.created && t.ops == s.ops && t.base == s.base && t.runRef == s.runRef
  }

  lemma BooksByView(s: State, t: State)
    requires OpsOk(s) && RefOk(s) && SameBooks(s, t)
    ensures OpsOk(t) && RefOk(t)
  {
    forall k | 0 <= k < |t.ops| ensures OpOk(t, k) { assert OpOk(s, k); }
    assert Calling(t.files) == Calling(s.files);
  }

  lemma StackByView(s: State, t: State)
    requires StackOk(s) && SameBooks(s, t) && t.frames == s.frames && SameMode(s.mode, t.mode)
    ensures StackOk(t)
  {}

  // ---- counting ---------------------------------------------------------------

  lemma CallingSet(files: map<nat, File>, f: nat, x: File)
    ensures |Calling(files[f := x])| ==
            |Calling(files)| - (if f in files && files[f].call then 1 else 0) + if x.call then 1 else 0
  {
    var a, b := Calling(files), Calling(files[f := x]);
    assert b == if x.call then (a - {f}) + {f} else a - {f};
    assert f in a <==> f in files && files[f].call;
  }

  lemma CallingLess(files: map<nat, File>, f: nat)
    requires f in files
    ensures |Calling(files - {f})| == |Calling(files)| - if files[f].call then 1 else 0
  {
    var a, b := Calling(files), Calling(files - {f});
    assert b == a - {f};
    assert f in a <==> files[f].call;
  }

  // ---- the data queue ---------------------------------------------------------

  /** u is s with f taken off the data queue. */
  ghost predicate Unqueued(s: State, u: State, f: nat) {
    && u == s.(q0 := u.q0, q1 := u.q1)
    && !Queued(u, f)
    && (forall g | g != f :: Queued(u, g) <==> Queued(s, g))
    && (s.q0 == [] ==> u.q0 == []) && (s.q1 == [] ==> u.q1 == [])
    && Shape(u)
  }

  lemma DropShape(s: State, u: State)
    requires Shape(s) && u == s.(q0 := u.q0, q1 := u.q1) && Distinct(u.q0) && Distinct(u.q1)
    requires forall y | y in u.q0 :: y in s.q0
    requires forall y | y in u.q1 :: y in s.q1
    ensures Shape(u)
  {}

  lemma WithoutBoth(s: State, f: nat)
    requires Shape(s)
    ensures Unqueued(s, s.(q0 := Without(s.q0, f), q1 := Without(s.q1, f)), f)
  {
    var u := s.(q0 := Without(s.q0, f), q1 := Without(s.q1, f));
    hide Distinct, Without;
    DropShape(s, u);
    hide Shape;
  }

  // ---- the workers ----------------------------------------------------------------

  lemma StirFile(s: State, w: int, g: nat)
    requires IsWorker(s, w) && s.workers[w].Waiting? && g in s.files && FileOk(s, g)
    ensures FileOk(StirStep(s, w), g)
  {}

  lemma KeepsStir(s: State, w: int)
    requires Inv(s) && IsWorker(s, w) && s.workers[w].Waiting?
    ensures Inv(StirStep(s, w))
  {
    var t := StirStep(s, w);
    assert t.workers[w].Awake?;
    forall i | 0 <= i < |t.workers| ensures WorkerOk(t, i) { assert WorkerOk(s, i); }
    hide FileOk, WorkerOk, OpOk, RefOk, StackOk, Distinct;
    forall g | g in t.files ensures FileOk(t, g) { assert FileOk(s, g); StirFile(s, w, g); }
    BooksByView(s, t);
    StackByView(s, t);
  }

  lemma RestFile(s: State, w: int, g: nat)
    requires IsWorker(s, w) && s.workers[w].Awake? && g in s.files && FileOk(s, g)
    ensures FileOk(RestStep(s, w), g)
  {}

  lemma KeepsRest(s: State, w: int)
    requires Inv(s) && IsWorker(s, w) && s.workers[w].Awake? && !CanTake(s)
    ensures Inv(RestStep(s, w))
  {
    var t := RestStep(s, w);
    forall i | 0 <= i < |t.workers| ensures WorkerOk(t, i) { assert WorkerOk(s, i); }
    RestAwake(s, w);
    hide FileOk, WorkerOk, OpOk, RefOk, StackOk, Distinct, AwakeOk, CanTake;
    forall g | g in t.files ensures FileOk(t, g) { assert FileOk(s, g); RestFile(s, w, g); }
    BooksByView(s, t);
    StackByView(s, t);
  }

  /** A worker only waits after finding nothing it could run. */
  lemma RestAwake(s: State, w: int)
    requires Shape(s) && FilesOk(s) && IsWorker(s, w) && s.workers[w].Awake? && !CanTake(s)
    ensures AwakeOk(RestStep(s, w))
  {
    hide Distinct;
    var t := RestStep(s, w);
    if (forall i | 0 <= i < |t.workers| :: t.workers[i].Waiting?) {
      forall f | f in s.files ensures f !in Held(s) {
        assert FileOk(s, f);
        if IsWorker(s, s.files[f].runner) && s.files[f].runner != w {
          assert t.workers[s.files[f].runner].Waiting?;
        }
      }
      NothingFree(s.q0, Held(s));
      NothingFree(s.q1, Held(s));
    }
  }

  lemma NothingFree(q: seq<nat>, held: set<nat>)
    requires forall f | f in q :: f !in held
    ensures q != [] ==> FirstFree(q, held) == 0
  {
    assert q != [] ==> q[0] in q;
  }

  lemma RunFile(s: State, w: int, error: bool, g: nat)
    requires RunsAt(s, w, Entered) && g in s.files && FileOk(s, g) && FileOk(s, s.workers[w].file)
    ensures FileOk(RunStep(s, w, error), g)
  {}

  lemma RunOps(s: State, w: int, error: bool)
    requires RunsAt(s, w, Entered) && FileOk(s, s.workers[w].file) && OpsOk(s)
    ensures OpsOk(RunStep(s, w, error))
  {
    var t := RunStep(s, w, error);
    forall k | 0 <= k < |t.ops| ensures OpOk(t, k) { assert OpOk(s, k); }
  }

  lemma RunStack(s: State, w: int, error: bool)
    requires StackOk(s) && RunsAt(s, w, Entered)
    ensures StackOk(RunStep(s, w, error))
  {}

  lemma KeepsRun(s: State, w: int, error: bool)
    requires Inv(s) && RunsAt(s, w, Entered)
    ensures Inv(RunStep(s, w, error))
  {
    var t := RunStep(s, w, error);
    var f := s.workers[w].file;
    forall i | 0 <= i < |t.workers| ensures WorkerOk(t, i) { assert WorkerOk(s, i); }
    hide FileOk, WorkerOk, OpOk, StackOk, Distinct;
    assert FileOk(s, f);
    forall g | g in t.files ensures FileOk(t, g) { assert FileOk(s, g); RunFile(s, w, error, g); }
    RunOps(s, w, error);
    RunStack(s, w, error);
    CallingSet(s.files, f, t.files[f]);
  }

  lemma PostFile(s: State, w: int, g: nat)
    requires RunsAt(s, w, Done) && g in s.files && FileOk(s, g) && WorkerOk(s, w)
    ensures FileOk(PostStep(s, w), g)
  {
    hide Distinct, Append;
  }

  lemma PostShape(s: State, w: int)
    requires RunsAt(s, w, Done) && Shape(s)
    ensures Shape(PostStep(s, w))
  {
    hide Distinct, Append;
  }

  lemma PostView(s: State, w: int)
    requires RunsAt(s, w, Done)
    ensures var t := PostStep(s, w); SameBooks(s, t) && t == s.(files := t.files, loopQ := t.loopQ)
  {
    hide Append;
  }

  lemma KeepsPost(s: State, w: int)
    requires Inv(s) && RunsAt(s, w, Done)
    ensures Inv(PostStep(s, w))
  {
    var t := PostStep(s, w);
    PostView(s, w);
    PostShape(s, w);
    assert WorkerOk(s, w);
    hide PostStep, FileOk, OpOk, StackOk, Shape, RefOk;
    forall i | 0 <= i < |t.workers| ensures WorkerOk(t, i) { assert WorkerOk(s, i); }
    hide WorkerOk;
    forall g | g in t.files ensures FileOk(t, g) { assert FileOk(s, g); PostFile(s, w, g); }
    BooksByView(s, t);
    StackByView(s, t);
  }

  lemma ClearFile(s: State, w: int, g: nat)
    requires RunsAt(s, w, Posted) && g in s.files && FileOk(s, g) && FileOk(s, s.workers[w].file) && WorkerOk(s, w)
    ensures FileOk(ClearStep(s, w), g)
  {}

  lemma ClearWorker(s: State, w: int, i: int)
    requires RunsAt(s, w, Posted) && IsWorker(s, i) && WorkerOk(s, i) && WorkerOk(s, w)
    ensures WorkerOk(ClearStep(s, w), i)
  {}

  lemma ClearView(s: State, w: int)
    requires RunsAt(s, w, Posted)
    ensures var t := ClearStep(s, w);
            && SameBooks(s, t) && t == s.(files := t.files, workers := t.workers)
            && |t.workers| == |s.workers| && t.workers[w].Awake?
  {}

  lemma KeepsClear(s: State, w: int)
    requires Inv(s) && RunsAt(s, w, Posted)
    ensures Inv(ClearStep(s, w))
  {
    var t := ClearStep(s, w);
    ClearView(s, w);
    assert FileOk(s, s.workers[w].file) && WorkerOk(s, w);
    hide ClearStep, FileOk, WorkerOk, OpOk, StackOk, RefOk, Distinct;
    forall g | g in t.files ensures FileOk(t, g) { assert FileOk(s, g); ClearFile(s, w, g); }
    forall i | 0 <= i < |t.workers| ensures WorkerOk(t, i) { assert WorkerOk(s, i); ClearWorker(s, w, i); }
    BooksByView(s, t);
    StackByView(s, t);
  }

  lemma StartFile(s: State, u: State, w: int, f: nat, g: nat)
    requires Unqueued(s, u, f) && Queued(s, f) && f in s.files && s.files[f].stage == Idle
    requires IsWorker(s, w) && s.workers[w].Awake?
    requires FileOk(s, f) && g in s.files && FileOk(s, g)
    ensures FileOk(Start(u, w, f), g)
  {
    hide Shape;
  }

  lemma StartWorker(s: State, u: State, w: int, f: nat, i: int)
    requires Unqueued(s, u, f) && f in s.files && s.files[f].stage == Idle
    requires IsWorker(s, w) && s.workers[w].Awake? && FileOk(s, f) && IsWorker(s, i) && WorkerOk(s, i)
    ensures WorkerOk(Start(u, w, f), i)
  {
    hide Shape;
  }

  lemma StartView(s: State, u: State, w: int, f: nat)
    requires Unqueued(s, u, f) && f in s.files && IsWorker(s, w)
    ensures var t := Start(u, w, f);
            && SameBooks(s, t) && t == u.(files := t.files, workers := t.workers)
            && |t.workers| == |s.workers| && t.workers[w].Runs? && Shape(t)
  {
    hide Distinct;
  }

  lemma KeepsStart(s: State, u: State, w: int, f: nat)
    requires Inv(s) && Unqueued(s, u, f) && Queued(s, f) && f in s.files && s.files[f].stage == Idle
    requires IsWorker(s, w) && s.workers[w].Awake?
    ensures Inv(Start(u, w, f))
  {
    var t := Start(u, w, f);
    StartView(s, u, w, f);
    assert FileOk(s, f);
    hide Start, FileOk, WorkerOk, OpOk, StackOk, RefOk, Shape;
    forall g | g in t.files ensures FileOk(t, g) { assert FileOk(s, g); StartFile(s, u, w, f, g); }
    forall i | 0 <= i < |t.workers| ensures WorkerOk(t, i) { assert WorkerOk(s, i); StartWorker(s, u, w, f, i); }
    BooksByView(s, t);
    StackByView(s, t);
  }

  /** Taking entry k of a queue is safe when no worker runs it yet. */
  lemma TakeFrom(s: State, k: int, low: bool)
    requires Shape(s) && 0 <= k < if low then |s.q0| else |s.q1|
    ensures var f := if low then s.q0[k] else s.q1[k];
            var u := if low then s.(q0 := DropAt(s.q0, k)) else s.(q1 := DropAt(s.q1, k));
            Unqueued(s, u, f) && Queued(s, f) && f in s.files
  {
    var u := if low then s.(q0 := DropAt(s.q0, k)) else s.(q1 := DropAt(s.q1, k));
    assert low ==> s.q0[k] in s.q0;
    assert !low ==> s.q1[k] in s.q1;
    hide Distinct, DropAt;
    DropShape(s, u);
  }

  lemma KeepsTake(s: State, w: int)
    requires Inv(s) && IsWorker(s, w) && s.workers[w].Awake? && CanTake(s)
    ensures Inv(TakeStep(s, w))
  {
    hide FilesOk, WorkersOk, OpsOk, StackOk, AwakeOk, RefOk, Unqueued, Start, DropAt, FirstFree, Distinct;

    var k := FirstFree(s.q0, Held(s));
    if k < |s.q0| {
      TakeFrom(s, k, true);
      KeepsStart(s, s.(q0 := DropAt(s.q0, k)), w, s.q0[k]);
    } else {
      var j := FirstFree(s.q1, Held(s));
      TakeFrom(s, j, false);
      KeepsStart(s, s.(q1 := DropAt(s.q1, j)), w, s.q1[j]);
    }
  }
}
