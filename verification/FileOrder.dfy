/** In which order things are done: completions are answered in the order in which
    they were posted, and operations are run in the order in which they were
    accepted, writes after the others. */
module FileOrder {
  import opened Queues
  import opened FilePhases
  import opened FileProtocol
  import opened FileSafety
  import opened FileOpens
  import opened FileRuns

  /** f is in the queue, and g is not in it or behind f. */
  predicate Ahead(q: seq<nat>, f: nat, g: nat) {
    f in q && forall i, j | 0 <= i < |q| && 0 <= j < |q| && q[i] == f && q[j] == g :: i < j
  }

  /** What happens to a queue: an entry comes in at the end, entries go, and those that
      stay keep their order. */
  ghost predicate Moved(q: seq<nat>, r: seq<nat>) {
    forall f, g | f != g && f in r && Ahead(q, f, g) :: Ahead(r, f, g)
  }

  lemma AppendMoves(q: seq<nat>, x: nat)
    requires x !in q
    ensures Moved(q, Append(q, x))
  {}

  lemma DropMoves(q: seq<nat>, k: int)
    requires 0 <= k < |q|
    ensures Moved(q, DropAt(q, k))
  {
    var r := DropAt(q, k);
    forall f, g | f != g && f in r && Ahead(q, f, g) ensures Ahead(r, f, g) {
      forall i, j | 0 <= i < |r| && 0 <= j < |r| && r[i] == f && r[j] == g ensures i < j {
        assert r[i] == q[if i < k then i else i + 1] && r[j] == q[if j < k then j else j + 1];
      }
    }
  }

  lemma WithoutMoves(q: seq<nat>, x: nat)
    ensures Moved(q, Without(q, x))
  {
    var k := IndexOf(q, x);
    if k < |q| { DropMoves(q, k); }
  }

  // ---- the loop queue -------------------------------------------------------------------------

  lemma PostMoves(s: State, w: int)
    requires RunsAt(s, w, Done)
    ensures Moved(s.loopQ, PostStep(s, w).loopQ)
  {
    var f := s.workers[w].file;
    if f !in s.loopQ { AppendMoves(s.loopQ, f); }
    hide Append;
  }

  lemma LoopMoves(s: State, step: Step)
    requires Enabled(s, step)
    ensures Moved(s.loopQ, Next(s, step).loopQ)
  {
    forall x: nat ensures Moved(s.loopQ, Without(s.loopQ, x)) { WithoutMoves(s.loopQ, x); }
    hide Moved, Without, Append, DropAt, Woken, CanTake, Held, FirstFree, PostStep;
    match step
    case Post(w) => PostMoves(s, w);
    case Pop => DropMoves(s.loopQ, 0);
    case _ => LoopStays(s, step);
  }

  lemma LoopStays(s: State, step: Step)
    requires Enabled(s, step) && !step.Post? && !step.Pop?
    ensures var r := Next(s, step).loopQ; r == s.loopQ || exists x :: r == Without(s.loopQ, x)
  {
    hide Without, Append, DropAt, Woken, CanTake, Held, FirstFree, Ended, Ran, Dropped;
  }

  /** The event loop takes g out of the loop queue, to answer it. */
  predicate Answers(s: State, step: Step, g: nat) {
    Enabled(s, step) && !s.mode.Popped? && Next(s, step).mode == Popped(g)
  }

  /** What is answered is the first in the queue. */
  lemma AnswersFirst(s: State, step: Step, g: nat)
    requires Answers(s, step, g)
    ensures s.loopQ != [] && s.loopQ[0] == g
  {
    hide Without, Append, DropAt, Woken, CanTake, Held, FirstFree, Ended, Ran, Dropped;
  }

  /** In some state of the run, f is not in the loop queue. */
  predicate LeavesLoop(s: State, steps: seq<Step>, f: nat)
    requires Legal(s, steps)
    decreases |steps|
  {
    f !in s.loopQ || (steps != [] && LeavesLoop(Next(s, steps[0]), steps[1..], f))
  }

  predicate WasAnswered(s: State, steps: seq<Step>, g: nat)
    requires Legal(s, steps)
    decreases |steps|
  {
    steps != [] && (Answers(s, steps[0], g) || WasAnswered(Next(s, steps[0]), steps[1..], g))
  }

  /** In every run: as long as f is in the loop queue, nothing is answered that was
      behind f or came into the queue later. */
  lemma {:induction false} AnsweredInOrder(s: State, steps: seq<Step>, f: nat, g: nat)
    requires Legal(s, steps) && f != g && Ahead(s.loopQ, f, g) && !LeavesLoop(s, steps, f)
    ensures !WasAnswered(s, steps, g) && Ahead(Play(s, steps).loopQ, f, g)
    decreases |steps|
  {
    if steps != [] {
      LoopMoves(s, steps[0]);
      var t := Next(s, steps[0]);
      assert f in t.loopQ by { assert !LeavesLoop(t, steps[1..], f); }
      if Answers(s, steps[0], g) { AnswersFirst(s, steps[0], g); }
      hide Next, Enabled;
      AnsweredInOrder(t, steps[1..], f, g);
    }
  }

  // ---- the data queues --------------------------------------------------------------------------

  function Queue(s: State, priority: int): seq<nat> { if priority == 0 then s.q0 else s.q1 }

  lemma SetDataMoves(s: State, f: nat, priority: int, p: int)
    requires f in s.files
    ensures Moved(Queue(s, p), Queue(SetData(s, f, priority), p))
  {
    if f !in s.q0 { AppendMoves(s.q0, f); }
    if f !in s.q1 { AppendMoves(s.q1, f); }
    hide Append, Woken;
  }

  lemma TakeMoves(s: State, w: int, p: int)
    requires IsWorker(s, w) && CanTake(s)
    ensures Moved(Queue(s, p), Queue(TakeStep(s, w), p))
  {
    hide DropAt, Moved, Held;
    var k, j := FirstFree(s.q0, Held(s)), FirstFree(s.q1, Held(s));
    if k < |s.q0| { DropMoves(s.q0, k); } else { DropMoves(s.q1, j); }
    Same(s.q0);
    Same(s.q1);
  }

  lemma Same(q: seq<nat>)
    ensures Moved(q, q)
  {}

  lemma CallMoves(s: State, step: Step, p: int)
    requires Enabled(s, step) && (step.Open? || step.Api? || step.CloseSync?)
    ensures Moved(Queue(s, p), Queue(Next(s, step), p))
  {
    hide Moved, SetData, Without;
    Same(Queue(s, p));
    match step
    case Open(withCall, sync) => OpenMoves(s, withCall, sync, p);
    case Api(f, phase, withCall) => ApiMoves(s, f, phase, withCall, p);
    case CloseSync(f) => ApiMoves(s, f, Closing, false, p);
  }

  lemma OpenMoves(s: State, withCall: bool, sync: bool, p: int)
    requires s.mode.InJs?
    ensures Moved(Queue(s, p), Queue(OpenStep(s, withCall, sync), p))
  {
    hide Moved, SetData, Without;
    var f, call := s.created, withCall && !sync;
    var t := s.(files := s.files[f := Opened(call, |s.ops|)], created := f + 1,
                ops := s.ops + [Op(f, Opening, call, 0, 0, 0, 0)],
                runRef := s.runRef + if call then 1 else 0);
    SetDataMoves(t, f, 0, p);
  }

  lemma ApiMoves(s: State, f: nat, phase: Phase, withCall: bool, p: int)
    requires f in s.files && phase != Ready
    ensures Moved(Queue(s, p), Queue(ApiStep(s, f, phase, withCall), p))
  {
    hide Moved, SetData;
    Same(Queue(s, p));
    if s.files[f].Accepts() {
      var t := s.(files := s.files[f := s.files[f].Accept(phase, withCall, |s.ops|)],
                  ops := s.ops + [Op(f, phase, withCall, 0, 0, 0, 0)],
                  runRef := s.runRef + if withCall then 1 else 0);
      SetDataMoves(t, f, PriorityOf(phase), p);
    }
  }

  lemma OtherMoves(s: State, step: Step, p: int)
    requires Enabled(s, step) && !step.Open? && !step.Api? && !step.CloseSync? && !step.Take?
    ensures var q, r := Queue(s, p), Queue(Next(s, step), p); r == q || exists x :: r == Without(q, x)
  {
    hide Without, Append, DropAt, CanTake, Held, Ended, Ran, Dropped;
  }

  lemma DataMoves(s: State, step: Step, p: int)
    requires Enabled(s, step)
    ensures Moved(Queue(s, p), Queue(Next(s, step), p))
  {
    forall x: nat ensures Moved(Queue(s, p), Without(Queue(s, p), x)) { WithoutMoves(Queue(s, p), x); }
    Same(Queue(s, p));
    hide Moved, Without, TakeStep, Queue, CanTake;
    match step
    case Open(_, _) => CallMoves(s, step, p);
    case Api(_, _, _) => CallMoves(s, step, p);
    case CloseSync(_) => CallMoves(s, step, p);
    case Take(w) => TakeMoves(s, w, p);
    case _ => OtherMoves(s, step, p);
  }

  /** A worker takes g, and could have taken f: no thread was at work on it. What comes
      from queue 0 is no offence against queue 1. */
  predicate Overtakes(s: State, step: Step, f: nat, g: nat, p: int) {
    && step.Take? && Enabled(s, step) && f !in Held(s)
    && Next(s, step).workers[step.worker] == Runs(g) && (p != 0 ==> g in s.q1)
  }

  predicate WasOvertaken(s: State, steps: seq<Step>, f: nat, g: nat, p: int)
    requires Legal(s, steps)
    decreases |steps|
  {
    steps != [] && (Overtakes(s, steps[0], f, g, p) || WasOvertaken(Next(s, steps[0]), steps[1..], f, g, p))
  }

  /** In some state of the run, f is not in the data queue of the priority. */
  predicate LeavesQueue(s: State, steps: seq<Step>, f: nat, p: int)
    requires Legal(s, steps)
    decreases |steps|
  {
    f !in Queue(s, p) || (steps != [] && LeavesQueue(Next(s, steps[0]), steps[1..], f, p))
  }

  lemma TakesInOrder(s: State, step: Step, f: nat, g: nat, p: int)
    requires Inv(s) && Overtakes(s, step, f, g, p) && f in Queue(s, p) && f != g
    ensures !Ahead(Queue(s, p), f, g)
  {
    TakesFirst(s, step.worker);
    TakesApart(s, g);
    hide Inv, DropAt, Held, FirstFree, Next, Enabled;
    var i :| 0 <= i < |Queue(s, p)| && Queue(s, p)[i] == f;
  }

  lemma TakesApart(s: State, g: nat)
    requires Inv(s)
    ensures g in s.q1 ==> g !in s.q0
  {
    assert g in s.q0 ==> g !in s.q1;
  }

  /** In every run: as long as f is in a data queue and could be run, nothing is run
      that was behind f in it or came into it later. */
  lemma {:induction false} RunInOrder(s: State, steps: seq<Step>, f: nat, g: nat, p: int)
    requires Inv(s) && Legal(s, steps) && f != g && Ahead(Queue(s, p), f, g) && !LeavesQueue(s, steps, f, p)
    ensures !WasOvertaken(s, steps, f, g, p) && Ahead(Queue(Play(s, steps), p), f, g)
    decreases |steps|
  {
    if steps != [] {
      hide Next, Enabled, Inv, Queue, Overtakes, Ahead;
      var t := Next(s, steps[0]);
      DataMoves(s, steps[0], p);
      assert f in Queue(t, p) by { assert !LeavesQueue(t, steps[1..], f, p); }
      AheadHas(Queue(s, p), f, g);
      if Overtakes(s, steps[0], f, g, p) { TakesInOrder(s, steps[0], f, g, p); }
      KeepsStep(s, steps[0]);
      RunInOrder(t, steps[1..], f, g, p);
    }
  }

  lemma AheadHas(q: seq<nat>, f: nat, g: nat)
    requires Ahead(q, f, g)
    ensures f in q
  {}

  // ---- reads before writes ------------------------------------------------------------------------

  /** Queue 1 holds the writes, queue 0 everything else. */
  predicate Sorted(s: State) {
    && (forall f | f in s.q0 :: f in s.files && s.files[f].phase != Writing)
    && (forall f | f in s.q1 :: f in s.files && s.files[f].phase == Writing)
  }

  lemma SetDataSorted(s: State, f: nat, priority: int)
    requires Sorted(s) && f in s.files && !Queued(s, f)
    requires s.files[f].phase == Writing <==> priority != 0
    ensures Sorted(SetData(s, f, priority))
  {
    hide Woken;
  }

  lemma ApiSorted(s: State, f: nat, p: Phase, withCall: bool)
    requires Sorted(s) && f in s.files && FileOk(s, f) && p != Ready
    ensures Sorted(ApiStep(s, f, p, withCall))
  {
    hide SetData;
    if s.files[f].Accepts() {
      var t := s.(files := s.files[f := s.files[f].Accept(p, withCall, |s.ops|)],
                  ops := s.ops + [Op(f, p, withCall, 0, 0, 0, 0)],
                  runRef := s.runRef + if withCall then 1 else 0);
      SetDataSorted(t, f, PriorityOf(p));
    }
  }

  lemma OpenSorted(s: State, withCall: bool, sync: bool)
    requires Sorted(s) && s.created !in s.files
    ensures Sorted(OpenStep(s, withCall, sync))
  {
    hide SetData, Without;
    var f, call := s.created, withCall && !sync;
    var t := s.(files := s.files[f := Opened(call, |s.ops|)], created := f + 1,
                ops := s.ops + [Op(f, Opening, call, 0, 0, 0, 0)],
                runRef := s.runRef + if call then 1 else 0);
    SetDataSorted(t, f, 0);
  }

  lemma TakeSorted(s: State, w: int)
    requires Sorted(s) && IsWorker(s, w) && CanTake(s)
    ensures Sorted(TakeStep(s, w))
  {
    hide DropAt, Held, CanTake;
  }

  lemma FinishSorted(s: State)
    requires Inv(s) && Sorted(s) && Enabled(s, Finish)
    ensures Sorted(FinishStep(s))
  {
    assert FileOk(s, s.mode.file);
    hide Inv, FinishStep;
    FinishView(s);
  }

  lemma FinishView(s: State)
    requires Enabled(s, Finish)
    ensures var f, t := s.mode.file, FinishStep(s);
            && t.files.Keys == s.files.Keys && (forall g | g in s.files && g != f :: t.files[g] == s.files[g])
            && (t.files[f].phase == s.files[f].phase || (s.files[f].Busy() && s.files[f].dataDone))
            && ((t.q0 == s.q0 && t.q1 == s.q1) || (t.q0 == Without(s.q0, f) && t.q1 == Without(s.q1, f)))
  {
    hide Without, Ended;
  }

  lemma DeleteSorted(s: State)
    requires Inv(s) && Sorted(s) && Enabled(s, Delete)
    ensures Sorted(DeleteStep(s, s.mode.file))
  {
    assert FileOk(s, s.mode.file);
    hide Inv, Without, Dropped;
  }

  lemma OtherSorted(s: State, step: Step)
    requires Sorted(s) && Enabled(s, step) && !step.Open? && !step.Api? && !step.CloseSync?
    requires !step.Take? && !step.Finish? && !step.Delete?
    ensures Sorted(Next(s, step))
  {
    hide Without, Append, DropAt, CanTake, Held, Ran;
  }

  lemma KeepsSorted(s: State, step: Step)
    requires Inv(s) && Sorted(s) && Enabled(s, step)
    ensures Sorted(Next(s, step))
  {
    hide Sorted, FileOk, ApiStep, TakeStep, FinishStep, DeleteStep, OpenStep, Without, CanTake, Distinct, Held;
    match step
    case Open(withCall, sync) => OpenSorted(s, withCall, sync);
    case Api(f, p, withCall) => ApiSorted(s, f, p, withCall);
    case CloseSync(f) =>
      ApiSorted(s, f, Closing, false);
      AwaitSorted(ApiStep(s, f, Closing, false), f, true);
    case Take(w) => TakeSorted(s, w);
    case Finish => FinishSorted(s);
    case Delete => DeleteSorted(s);
    case _ => OtherSorted(s, step);
  }

  lemma AwaitSorted(s: State, f: nat, delete: bool)
    requires Sorted(s)
    ensures Sorted(Await(s, f, delete))
  {}

  lemma {:induction false} RunSorted(s: State, steps: seq<Step>)
    requires Inv(s) && Sorted(s) && Legal(s, steps)
    ensures Inv(Play(s, steps)) && Sorted(Play(s, steps))
    decreases |steps|
  {
    hide Inv, Sorted, Enabled, Next;
    if steps != [] {
      KeepsStep(s, steps[0]);
      KeepsSorted(s, steps[0]);
      RunSorted(Next(s, steps[0]), steps[1..]);
    }
  }

  /** In every run, a worker only takes a write when no other operation that is waiting
      could be run. */
  lemma WritesLast(s: State, steps: seq<Step>, w: int, f: nat)
    requires Initial(s) && Legal(s, steps) && Enabled(Play(s, steps), Take(w))
    requires var e := Play(s, steps); Queued(e, f) && f in e.files && f !in Held(e) && e.files[f].phase != Writing
    ensures var e := Play(s, steps); var t := Next(e, Take(w));
            t.workers[w].Runs? && t.workers[w].file in e.files && e.files[t.workers[w].file].phase != Writing
  {
    InitialSound(s);
    RunSorted(s, steps);
    var e := Play(s, steps);
    TakesFirst(e, w);
    hide Inv, Play, Legal, Next, Enabled, Held;
  }

  // ---- what is answered is called --------------------------------------------------------------------

  /** One more frame is on the stack exactly when an operation is answered: then it is
      the one that the frame's file was busy with, and no other. */
  lemma CallsAreFrames(s: State, step: Step)
    requires Inv(s) && Enabled(s, step)
    ensures var t := Next(s, step);
            if |t.frames| > |s.frames| then
              && step.Finish? && |t.frames| == |s.frames| + 1 && t.frames[|s.frames|].file == s.mode.file
              && var o := s.files[s.mode.file].op;
                 && o < |s.ops| == |t.ops| && t.ops[o].calls == s.ops[o].calls + 1
                 && forall k | 0 <= k < |s.ops| && k != o :: t.ops[k].calls == s.ops[k].calls
            else |t.ops| >= |s.ops| && forall k | 0 <= k < |s.ops| :: t.ops[k].calls == s.ops[k].calls
  {
    if step.Finish? {
      assert FileOk(s, s.mode.file);
      FinishCalls(s);
    } else {
      OtherCalls(s, step);
    }
  }

  lemma FinishCalls(s: State)
    requires Enabled(s, Finish) && FileOk(s, s.mode.file)
    ensures var t, f := FinishStep(s), s.mode.file;
            if |t.frames| > |s.frames| then
              && |t.frames| == |s.frames| + 1 && t.frames[|s.frames|].file == f
              && var o := s.files[f].op;
                 && o < |s.ops| == |t.ops| && t.ops[o].calls == s.ops[o].calls + 1
                 && forall k | 0 <= k < |s.ops| && k != o :: t.ops[k].calls == s.ops[k].calls
            else |t.ops| >= |s.ops| && forall k | 0 <= k < |s.ops| :: t.ops[k].calls == s.ops[k].calls
  {
    hide Without;
  }

  lemma OtherCalls(s: State, step: Step)
    requires Enabled(s, step) && !step.Finish?
    ensures var t := Next(s, step);
            && |t.frames| <= |s.frames| && |t.ops| >= |s.ops|
            && forall k | 0 <= k < |s.ops| :: t.ops[k].calls == s.ops[k].calls
  {
    hide Without, Append, DropAt, FirstFree, CanTake, Held, Woken;
  }
}
