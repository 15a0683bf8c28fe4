/** What holds in every run of the protocol: mutual exclusion, reference counts,
    each accepted operation run and answered at most once, and no stall. */
module FileRuns {
  import opened Queues
  import opened FilePhases
  import opened FileProtocol
  import opened FileSafety
  import opened FileOpens
  import opened FileDeletes

  // ---- runs ------------------------------------------------------------------------

  predicate Initial(s: State) {
    && s.files == map[] && s.created == 0 && s.q0 == [] && s.q1 == [] && s.loopQ == [] && s.frames == []
    && s.mode == InJs && s.runRef == s.base && s.ops == []
    && |s.workers| > 0 && forall i | 0 <= i < |s.workers| :: s.workers[i] == Awake
  }

  /** The steps can be taken one after the other, from s. */
  predicate Legal(s: State, steps: seq<Step>)
    decreases |steps|
  {
    steps == [] || (Enabled(s, steps[0]) && Legal(Next(s, steps[0]), steps[1..]))
  }

  function Play(s: State, steps: seq<Step>): State
    requires Legal(s, steps)
    decreases |steps|
  {
    if steps == [] then s else Play(Next(s, steps[0]), steps[1..])
  }

  predicate CarefulRun(s: State, steps: seq<Step>)
    requires Legal(s, steps)
    decreases |steps|
  {
    steps == [] || (Careful(s, steps[0]) && CarefulRun(Next(s, steps[0]), steps[1..]))
  }

  lemma InitialSound(s: State)
    requires Initial(s)
    ensures Sound(s)
  {
    assert Calling(s.files) == {};
  }

  lemma {:induction false} KeepsInv(s: State, steps: seq<Step>)
    requires Inv(s) && Legal(s, steps)
    ensures Inv(Play(s, steps))
    decreases |steps|
  {
    hide Inv, Enabled, Next;
    if steps != [] {
      KeepsStep(s, steps[0]);
      KeepsInv(Next(s, steps[0]), steps[1..]);
    }
  }

  lemma {:induction false} KeepsRunning(s: State, steps: seq<Step>)
    requires Sound(s) && Legal(s, steps) && CarefulRun(s, steps)
    ensures Sound(Play(s, steps))
    decreases |steps|
  {
    hide Sound, Enabled, Next, Careful;
    if steps != [] {
      KeepsSound(s, steps[0]);
      KeepsRunning(Next(s, steps[0]), steps[1..]);
    }
  }

  lemma AlwaysInv(s: State, steps: seq<Step>)
    requires Initial(s) && Legal(s, steps)
    ensures Inv(Play(s, steps))
  {
    InitialSound(s);
    KeepsInv(s, steps);
  }

  // ---- safety over whole runs ---------------------------------------------------------

  /** At any moment of any run: two workers never run the same file, and a file's
      flag is set exactly when one runs it; work is queued only for a file that is
      busy and not done; if some of it could be run, not every worker waits; run_ref
      counts the files that hold a callback; no worker runs a deleted file. */
  lemma SafeAlways(s: State, steps: seq<Step>)
    requires Initial(s) && Legal(s, steps)
    ensures var e := Play(s, steps);
            && (forall i, j | 0 <= i < j < |e.workers| && e.workers[i].Runs? && e.workers[j].Runs? ::
                  e.workers[i].file != e.workers[j].file)
            && (forall f | f in e.files ::
                  (e.files[f].stage != Idle <==> exists i :: IsWorker(e, i) && e.workers[i] == Runs(f)))
            && (forall f | Queued(e, f) :: f in e.files && e.files[f].Busy() && !e.files[f].dataDone)
            && (CanTake(e) ==> exists i :: IsWorker(e, i) && !e.workers[i].Waiting?)
            && e.runRef == e.base + |Calling(e.files)|
            && (forall i | 0 <= i < |e.workers| && e.workers[i].Runs? :: e.workers[i].file in e.files)
  {
    AlwaysInv(s, steps);
    var e := Play(s, steps);
    SomebodyAwake(e);
    hide Play, Legal, Distinct, OpOk, AwakeOk, Calling, CanTake;
    forall i | 0 <= i < |e.workers| && e.workers[i].Runs? ensures e.workers[i].file in e.files {
      assert WorkerOk(e, i);
    }
    forall i, j | 0 <= i < j < |e.workers| && e.workers[i].Runs? && e.workers[j].Runs?
      ensures e.workers[i].file != e.workers[j].file
    {
      assert WorkerOk(e, i) && WorkerOk(e, j);
    }
    forall f | Queued(e, f) ensures f in e.files && e.files[f].Busy() && !e.files[f].dataDone {
      assert FileOk(e, f);
    }
    forall f | f in e.files
      ensures e.files[f].stage != Idle <==> exists i :: IsWorker(e, i) && e.workers[i] == Runs(f)
    {
      assert FileOk(e, f);
      forall i | IsWorker(e, i) && e.workers[i] == Runs(f) ensures e.files[f].stage != Idle { assert WorkerOk(e, i); }
    }
  }

  /** At any moment of a careful run the code thread refers to no deleted file, and
      no file is to be deleted twice. */
  lemma CarefulFindsAll(s: State, steps: seq<Step>)
    requires Initial(s) && Legal(s, steps) && CarefulRun(s, steps)
    ensures var e := Play(s, steps);
            && (!e.mode.InJs? ==> e.mode.file in e.files)
            && (forall i | 0 <= i < |e.frames| && e.frames[i].delete :: e.frames[i].file in e.files)
            && (forall f: nat :: Orders(e, f) <= 1)
  {
    InitialSound(s);
    KeepsRunning(s, steps);
    hide Play, Legal, CarefulRun, Orders;
    var e := Play(s, steps);
    SoundFindsAll(e);
    forall f: nat ensures Orders(e, f) <= 1 { assert Excess(e, f) <= 0; }
  }

  lemma SomebodyAwake(e: State)
    requires AwakeOk(e) && |e.workers| > 0
    ensures CanTake(e) ==> exists i :: IsWorker(e, i) && !e.workers[i].Waiting?
  {
    if forall i | 0 <= i < |e.workers| :: e.workers[i].Waiting? {
      assert FirstFree<nat>([], Held(e)) == 0;
    }
  }

  /** The worker's search: a file of priority 1 is only taken when no other thread
      could take one of priority 0, and the first that can be taken is. */
  lemma TakesFirst(s: State, w: int)
    requires Inv(s) && Enabled(s, Take(w))
    ensures var f := Next(s, Take(w)).workers[w].file;
            && f !in Held(s) && Next(s, Take(w)).workers[w].Runs?
            && ((exists k :: 0 <= k < |s.q0| && s.q0[k] == f && forall j | 0 <= j < k :: s.q0[j] in Held(s))
                || ((forall j | 0 <= j < |s.q0| :: s.q0[j] in Held(s))
                    && exists k :: 0 <= k < |s.q1| && s.q1[k] == f && forall j | 0 <= j < k :: s.q1[j] in Held(s)))
  {
    hide Inv, Held, DropAt;
    var k := FirstFree(s.q0, Held(s));
    if k == |s.q0| { var j := FirstFree(s.q1, Held(s)); }
  }

  /** No operation is run, finished or answered twice, answered without having
      been run, or answered when it came without a callback. */
  lemma AtMostOnce(s: State, steps: seq<Step>, t: int)
    requires Initial(s) && Legal(s, steps) && 0 <= t < |Play(s, steps).ops|
    ensures var o := Play(s, steps).ops[t];
            && o.calls <= o.ends <= o.runs <= 1 && o.ends + o.drops <= 1
            && (o.ends == 1 ==> o.calls == if o.withCall then 1 else 0)
  {
    AlwaysInv(s, steps);
    assert OpOk(Play(s, steps), t);
  }

  // ---- no stall -------------------------------------------------------------------------

  /** Steps the threads take by themselves: no API call, no spurious wake-up. */
  predicate Internal(step: Step) {
    !(step.Open? || step.Api? || step.WaitDone? || step.CloseSync? || step.Stir?)
  }

  function Sum(a: seq<int>): int { if a == [] then 0 else a[0] + Sum(a[1..]) }

  lemma {:induction false} SumUpdate(a: seq<int>, b: seq<int>, k: int)
    requires |a| == |b| && 0 <= k < |a| && forall i | 0 <= i < |a| && i != k :: a[i] == b[i]
    ensures Sum(b) == Sum(a) - a[k] + b[k]
  {
    if k == 0 {
      assert a[1..] == b[1..];
    } else {
      SumUpdate(a[1..], b[1..], k - 1);
    }
  }

  lemma {:induction false} SumPositive(a: seq<int>)
    requires forall i | 0 <= i < |a| :: a[i] >= 0
    ensures Sum(a) >= 0
  {
    if a != [] { SumPositive(a[1..]); }
  }

  function WorkerWeight(s: State, i: int): int
    requires IsWorker(s, i)
  {
    match s.workers[i]
    case Waiting => 0
    case Awake => 2
    case Runs(f) =>
      if f !in s.files then 4
      else match s.files[f].stage case Entered => 20 case Done => 15 case Posted => 4 case Idle => 4
  }

  function Weights(s: State): (r: seq<int>)
    ensures |r| == |s.workers| && forall i | 0 <= i < |r| :: r[i] == WorkerWeight(s, i)
  {
    seq(|s.workers|, i requires 0 <= i < |s.workers| => WorkerWeight(s, i))
  }

  function ModeWeight(m: Mode): int {
    match m
    case InJs => 0
    case Popped(_) => 5
    case Check(_, _) => 5
    case Sleep(_, _) => 1
    case Drain(_, asleep) => if asleep then 1 else 2
  }

  /** An upper bound on the work left. */
  function Work(s: State): int {
    30 * (|s.q0| + |s.q1|) + 8 * |s.loopQ| + Sum(Weights(s)) + 3 * |s.frames| + ModeWeight(s.mode)
  }

  lemma WorkPositive(s: State)
    ensures Work(s) >= 0
  {
    SumPositive(Weights(s));
  }

  /** Only worker w moves. */
  lemma WorkerMoves(s: State, t: State, w: int)
    requires Inv(s) && IsWorker(s, w) && |t.workers| == |s.workers|
    requires forall i | 0 <= i < |s.workers| && i != w :: t.workers[i] == s.workers[i]
    requires t.files.Keys == s.files.Keys
    requires forall f | f in s.files && s.workers[w] != Runs(f) && s.files[f].stage != Idle ::
        t.files[f].stage == s.files[f].stage
    ensures Sum(Weights(t)) == Sum(Weights(s)) - WorkerWeight(s, w) + WorkerWeight(t, w)
  {
    var a, b := Weights(s), Weights(t);
    forall i | 0 <= i < |a| && i != w ensures a[i] == b[i] {
      assert WorkerOk(s, i) && WorkerOk(s, w);
      if s.workers[i].Runs? { assert FileOk(s, s.workers[i].file); }
    }
    SumUpdate(a, b, w);
  }

  lemma WorkersRest(s: State, t: State)
    requires Inv(s) && t.workers == s.workers
    requires forall f | f in s.files && s.files[f].stage != Idle :: f in t.files && t.files[f].stage == s.files[f].stage
    ensures Sum(Weights(t)) == Sum(Weights(s))
  {
    var a, b := Weights(s), Weights(t);
    forall i | 0 <= i < |a| ensures a[i] == b[i] {
      assert WorkerOk(s, i);
      if s.workers[i].Runs? { assert FileOk(s, s.workers[i].file); }
    }
    assert a == b;
  }

  lemma TakeView(s: State, w: int)
    requires Inv(s) && Enabled(s, Take(w))
    ensures var t := TakeStep(s, w);
            && |t.q0| + |t.q1| == |s.q0| + |s.q1| - 1 && t.loopQ == s.loopQ && t.frames == s.frames && t.mode == s.mode
            && |t.workers| == |s.workers| && (forall i | 0 <= i < |s.workers| && i != w :: t.workers[i] == s.workers[i])
            && t.files.Keys == s.files.Keys && t.workers[w].Runs? && t.workers[w].file in t.files
            && t.files[t.workers[w].file].stage == Entered
            && forall f | f in s.files && s.files[f].stage != Idle :: t.files[f].stage == s.files[f].stage
  {
    hide OpOk, StackOk, AwakeOk, RefOk, OpsOk, Distinct, FileOk, WorkerOk;
    var k := FirstFree(s.q0, Held(s));
    var f := if k < |s.q0| then s.q0[k] else s.q1[FirstFree(s.q1, Held(s))];
    assert Queued(s, f);
  }

  lemma TakeWorks(s: State, w: int)
    requires Inv(s) && Enabled(s, Take(w))
    ensures Work(TakeStep(s, w)) < Work(s)
  {
    hide Inv, TakeStep, Sum, CanTake;
    TakeView(s, w);
    WorkerMoves(s, TakeStep(s, w), w);
  }

  lemma RestWorks(s: State, w: int)
    requires Inv(s) && Enabled(s, Rest(w))
    ensures Work(RestStep(s, w)) < Work(s)
  {
    hide Inv, Sum;
    WorkerMoves(s, RestStep(s, w), w);
  }

  lemma RunWorks(s: State, w: int, error: bool)
    requires Inv(s) && Enabled(s, Run(w, error))
    ensures Work(RunStep(s, w, error)) < Work(s)
  {
    hide Inv, Sum;
    WorkerMoves(s, RunStep(s, w, error), w);
  }

  lemma PostWorks(s: State, w: int)
    requires Inv(s) && Enabled(s, Post(w))
    ensures Work(PostStep(s, w)) < Work(s)
  {
    hide Inv, Sum;
    WorkerMoves(s, PostStep(s, w), w);
  }

  lemma ClearWorks(s: State, w: int)
    requires Inv(s) && Enabled(s, Clear(w))
    ensures Work(ClearStep(s, w)) < Work(s)
  {
    hide Inv, Sum;
    WorkerMoves(s, ClearStep(s, w), w);
  }

  /** What FinishPhase changes at most. */
  ghost predicate Cheaper(s: State, t: State) {
    && |t.q0| <= |s.q0| && |t.q1| <= |s.q1| && t.loopQ == s.loopQ && t.workers == s.workers
    && 3 * |t.frames| + ModeWeight(t.mode) < 3 * |s.frames| + ModeWeight(s.mode)
    && t.files.Keys == s.files.Keys && forall f | f in s.files :: t.files[f].stage == s.files[f].stage
  }

  lemma BeginDeleteCost(s: State, f: nat)
    requires ModeWeight(s.mode) > 2
    ensures Cheaper(s, BeginDelete(s, f))
  {
    hide Without;
  }

  lemma FinishInCost(s: State, f: nat, delete: bool, loop: bool)
    requires f in s.files && ModeWeight(s.mode) == 5
    ensures Cheaper(s, FinishIn(s, f, delete, loop))
  {
    hide Without, Ended;
  }

  /** Whatever FinishPhase leads to costs less than the look itself. */
  lemma FinishCost(s: State)
    requires (s.mode.Popped? || s.mode.Check?) && s.mode.file in s.files
    ensures Cheaper(s, FinishStep(s))
  {
    hide Cheaper, FinishIn, BeginDelete;
    var f := s.mode.file;
    BeginDeleteCost(s, f);
    if s.mode.Check? {
      FinishInCost(s, f, s.mode.delete, false);
    } else {
      FinishInCost(s, f, s.files[f].phase == Closing, true);
    }
  }

  lemma FinishWorks(s: State)
    requires Inv(s) && Enabled(s, Finish)
    ensures Work(FinishStep(s)) < Work(s)
  {
    hide Inv, FinishStep, ModeWeight, Sum, Weights;
    FinishCost(s);
    WorkersRest(s, FinishStep(s));
  }

  lemma WakeWorks(s: State)
    requires Inv(s) && Enabled(s, Wake)
    ensures Work(Await(s, s.mode.file, s.mode.delete)) < Work(s)
  {
    hide Inv, Sum;
    WorkersRest(s, Await(s, s.mode.file, s.mode.delete));
  }

  lemma ReturnWorks(s: State)
    requires Inv(s) && Enabled(s, Return)
    ensures Work(ReturnStep(s)) < Work(s)
  {
    hide Inv, Sum;
    WorkersRest(s, ReturnStep(s));
  }

  lemma PopWorks(s: State)
    requires Inv(s) && Enabled(s, Pop)
    ensures Work(PopStep(s)) < Work(s)
  {
    hide Inv, Sum;
    WorkersRest(s, PopStep(s));
  }

  lemma ThrowWorks(s: State)
    requires Inv(s) && Enabled(s, Throw)
    ensures Work(ThrowStep(s)) < Work(s)
  {
    hide Inv, Sum;
    WorkersRest(s, ThrowStep(s));
  }

  lemma DozeWorks(s: State)
    requires Inv(s) && Enabled(s, Doze)
    ensures Work(s.(mode := Drain(s.mode.file, true))) < Work(s)
  {
    hide Inv, Sum;
    WorkersRest(s, s.(mode := Drain(s.mode.file, true)));
  }

  lemma DeleteWorks(s: State)
    requires Inv(s) && Enabled(s, Delete)
    ensures Work(DeleteStep(s, s.mode.file)) < Work(s)
  {
    hide Inv, Sum, Dropped;
    WorkersRest(s, DeleteStep(s, s.mode.file));
  }

  lemma Works(s: State, step: Step)
    requires Inv(s) && Enabled(s, step) && Internal(step)
    ensures Work(Next(s, step)) < Work(s)
  {
    hide Inv, Work, TakeStep, RestStep, RunStep, PostStep, ClearStep, PopStep, FinishStep, ReturnStep, ThrowStep,
        DeleteStep, Await;
    match step
    case Take(w) => TakeWorks(s, w);
    case Rest(w) => RestWorks(s, w);
    case Run(w, error) => RunWorks(s, w, error);
    case Post(w) => PostWorks(s, w);
    case Clear(w) => ClearWorks(s, w);
    case Pop => PopWorks(s);
    case Finish => FinishWorks(s);
    case Wake => WakeWorks(s);
    case Return => ReturnWorks(s);
    case Throw => ThrowWorks(s);
    case Doze => DozeWorks(s);
    case Delete => DeleteWorks(s);
    case _ =>
  }

  /** Left to themselves the threads come to rest, whatever the schedule. */
  lemma {:induction false} ComesToRest(s: State, steps: seq<Step>)
    requires Inv(s) && Legal(s, steps) && forall i | 0 <= i < |steps| :: Internal(steps[i])
    ensures |steps| <= Work(s)
    decreases |steps|
  {
    hide Inv, Work, Enabled, Next, Internal;
    WorkPositive(s);
    if steps != [] {
      KeepsStep(s, steps[0]);
      Works(s, steps[0]);
      ComesToRest(Next(s, steps[0]), steps[1..]);
    }
  }

  ghost predicate Resting(s: State) { forall step | Internal(step) :: !Enabled(s, step) }

  /** A worker that does not wait has something to do. */
  lemma WorkerMoving(s: State, i: int) returns (step: Step)
    requires Inv(s) && IsWorker(s, i) && !s.workers[i].Waiting?
    ensures Internal(step) && Enabled(s, step)
  {
    hide CanTake, Distinct, OpOk, StackOk, AwakeOk, RefOk;
    assert WorkerOk(s, i);
    if s.workers[i].Awake? {
      step := if CanTake(s) then Take(i) else Rest(i);
    } else {
      var f := s.workers[i].file;
      assert FileOk(s, f);
      step := match s.files[f].stage case Entered => Run(i, false) case Done => Post(i) case _ => Clear(i);
    }
  }

  lemma WorkersWait(s: State, i: int)
    requires Inv(s) && Resting(s) && IsWorker(s, i)
    ensures s.workers[i].Waiting?
  {
    hide Inv;
    if !s.workers[i].Waiting? {
      var step := WorkerMoving(s, i);
    }
  }

  lemma AllWait(s: State)
    requires Inv(s) && Resting(s)
    ensures forall i | 0 <= i < |s.workers| :: s.workers[i].Waiting?
  {
    hide Inv, Resting;
    forall i | 0 <= i < |s.workers| ensures s.workers[i].Waiting? { WorkersWait(s, i); }
  }

  /** At rest every worker waits, both queues and the stack are empty, and no
      file is busy: no wake-up was lost. The only other end is the deletion of a
      file that is gone. */
  lemma RestIsQuiet(s: State)
    requires Inv(s) && Resting(s) && !DeletesAgain(s)
    ensures s.q0 == [] && s.q1 == [] && s.loopQ == [] && s.frames == [] && s.mode.InJs?
    ensures forall f | f in s.files :: !s.files[f].Busy()
    ensures s.runRef == s.base
  {
    hide FilesOk, OpsOk, WorkersOk, Shape, AwakeOk, CanTake, Held;
    AllWait(s);
    RestIsIdle(s);
    assert !Enabled(s, Pop) && !Enabled(s, Finish) && !Enabled(s, Wake) && !Enabled(s, Return)
        && !Enabled(s, Doze) && !Enabled(s, Delete);
    assert s.mode.InJs? && s.frames == [] && s.loopQ == [];
    assert Calling(s.files) == {};
  }

  /** While every worker waits, what is busy waits for the code thread. */
  lemma RestIsIdle(s: State)
    requires Inv(s) && forall i | 0 <= i < |s.workers| :: s.workers[i].Waiting?
    ensures s.q0 == [] && s.q1 == [] && !(s.mode.Drain? && s.mode.asleep)
    ensures forall f | f in s.files ::
              && s.files[f].stage == Idle && (!s.files[f].Busy() ==> !s.files[f].call)
              && (s.files[f].Busy() ==> f in s.loopQ || s.mode.Drain? || Looking(s, f))
  {
    hide Distinct, OpOk, WorkerOk, StackOk, RefOk;
    forall f | f in s.files
      ensures s.files[f].stage == Idle && (!s.files[f].Busy() ==> !s.files[f].call)
      ensures s.files[f].Busy() ==> f in s.loopQ || s.mode.Drain? || Looking(s, f)
    {
      assert FileOk(s, f);
    }
  }
}
