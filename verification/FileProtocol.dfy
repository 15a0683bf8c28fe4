/** The worker-thread protocol of src/low_data_thread.cpp, src/LowFile.cpp,
    src/low_loop.cpp and their clients in src/low_fs.cpp, as a state machine:
    one step is what a thread does between two points where another thread can
    come in. The code thread runs JavaScript and the event loop, the workers
    run OnData. */
module FileProtocol {
  import opened Queues
  import opened FilePhases

  datatype Worker = Waiting | Awake | Runs(file: nat)

  /** A completion callback of `file` that the code thread is inside of; with
      `delete`, the file is deleted when it returns, but not when it throws. */
  datatype Frame = Frame(file: nat, delete: bool)

  /** What the code thread is doing:
      InJs   running JavaScript, or the event loop if there is no frame;
      Popped took the file from the loop queue and is about to call OnLoop;
      Check  took the file out of the loop queue in low_fs_open_sync,
             low_fs_close_sync or low_fs_waitdone, about to call FinishPhase;
      Sleep  waits in one of these for the file to show up in the loop queue;
      Drain  is in ~LowFile, asleep on data_thread_done_cond or about to look at
             mInDataThread. */
  datatype Mode =
    | InJs
    | Popped(file: nat)
    | Check(file: nat, delete: bool)
    | Sleep(file: nat, delete: bool)
    | Drain(file: nat, asleep: bool)

  /** History of one accepted operation: the file it was accepted on and what it
      was for, whether a callback came with it, and how often OnData ran it, its
      phase was finished, its callback was called and it died with its file. */
  datatype Op = Op(owner: nat, kind: Phase, withCall: bool, runs: nat, ends: nat, calls: nat, drops: nat)

  datatype State = State(
    files: map<nat, File>, created: nat,
    q0: seq<nat>, q1: seq<nat>, loopQ: seq<nat>,
    workers: seq<Worker>,
    frames: seq<Frame>, mode: Mode,
    base: int, runRef: int,
    ops: seq<Op>)

  datatype Step =
    | Open(withCall: bool, sync: bool)
    | Api(file: nat, phase: Phase, withCall: bool)
    | WaitDone(file: nat)
    | CloseSync(file: nat)
    | Stir(worker: int)
    | Take(worker: int)
    | Rest(worker: int)
    | Run(worker: int, error: bool)
    | Post(worker: int)
    | Clear(worker: int)
    | Pop
    | Finish
    | Wake
    | Return
    | Throw
    | Doze
    | Delete

  // ---- the two queues -------------------------------------------------------

  predicate Queued(s: State, f: nat) { f in s.q0 || f in s.q1 }

  /** Files whose mInDataThread flag is set. */
  function Held(s: State): set<nat> { set f | f in s.files && s.files[f].stage != Idle }

  /** low_data_set_callback: a file already queued stays where it is; the
      workers are only woken when the file can be run at once. */
  function SetData(s: State, f: nat, priority: int): State
    requires f in s.files
  {
    if Queued(s, f) then s
    else
      var t := if priority == 0 then s.(q0 := Append(s.q0, f)) else s.(q1 := Append(s.q1, f));
      if s.files[f].stage == Idle then t.(workers := Woken(s.workers)) else t
  }

  function Woken(ws: seq<Worker>): (r: seq<Worker>)
    ensures |r| == |ws| && forall i | 0 <= i < |ws| :: r[i] == if ws[i].Waiting? then Awake else ws[i]
  {
    seq(|ws|, i requires 0 <= i < |ws| => if ws[i].Waiting? then Awake else ws[i])
  }

  /** low_loop_set_callback. */
  function SetLoop(s: State, f: nat): State {
    if f in s.loopQ then s else s.(loopQ := Append(s.loopQ, f))
  }

  predicate CanTake(s: State) {
    FirstFree(s.q0, Held(s)) < |s.q0| || FirstFree(s.q1, Held(s)) < |s.q1|
  }

  // ---- the code thread --------------------------------------------------------

  predicate Live(s: State, f: nat) { f in s.files && s.files[f].advertised }

  /** The code thread is inside a callback after which the file is deleted. */
  predicate Doomed(s: State, f: nat) { Frame(f, true) in s.frames }

  function Begin(s: State, f: nat, p: Phase, withCall: bool): State
    requires f in s.files && s.files[f].Accepts() && p != Ready
  {
    var t := s.(files := s.files[f := s.files[f].Accept(p, withCall, |s.ops|)],
                ops := s.ops + [Op(f, p, withCall, 0, 0, 0, 0)],
                runRef := s.runRef + if withCall then 1 else 0);
    SetData(t, f, PriorityOf(p))
  }

  /** The start of ~LowFile: the file leaves the data queue. */
  function BeginDelete(s: State, f: nat): State {
    s.(q0 := Without(s.q0, f), q1 := Without(s.q1, f), mode := Drain(f, false))
  }

  /** FinishPhase throws what went wrong with an operation that has no callback. */
  predicate Raises(x: File) { x.Busy() && x.dataDone && !x.call && x.failed }

  /** What FinishPhase was called for: the file is deleted if `delete`, unless an
      exception gets in the way; `loop` tells OnLoop from the synchronous callers. */
  function FinishIn(s: State, f: nat, delete: bool, loop: bool): State
    requires f in s.files
  {
    var x := s.files[f];
    if !x.Busy() then Leave(s, f, delete)
    else if !x.dataDone then s.(mode := if loop then InJs else Sleep(f, delete))
    else
      var t := EndPhase(s, f);
      if x.call then t.(frames := s.frames + [Frame(f, delete)])
      else if Raises(x) then t
      else Leave(t, f, delete)
  }

  /** FinishPhase up to the callback. */
  function EndPhase(s: State, f: nat): State
    requires f in s.files && s.files[f].Busy() && s.files[f].dataDone
  {
    var x := s.files[f];
    s.(files := s.files[f := x.Finished()], ops := Ended(s.ops, x.op, x.call),
       runRef := s.runRef - if x.call then 1 else 0, mode := InJs)
  }

  function Leave(s: State, f: nat, delete: bool): State {
    if delete then BeginDelete(s, f) else s.(mode := InJs)
  }

  function Ended(ops: seq<Op>, t: nat, call: bool): (r: seq<Op>)
    ensures |r| == |ops|
  {
    if t < |ops| then ops[t := ops[t].(ends := ops[t].ends + 1, calls := ops[t].calls + if call then 1 else 0)]
    else ops
  }

  function Ran(ops: seq<Op>, t: nat): (r: seq<Op>)
    ensures |r| == |ops|
  {
    if t < |ops| then ops[t := ops[t].(runs := ops[t].runs + 1)] else ops
  }

  function Dropped(ops: seq<Op>, t: nat): (r: seq<Op>)
    ensures |r| == |ops|
  {
    if t < |ops| then ops[t := ops[t].(drops := ops[t].drops + 1)] else ops
  }

  // ---- steps -------------------------------------------------------------------

  predicate IsWorker(s: State, w: int) { 0 <= w < |s.workers| }

  predicate RunsAt(s: State, w: int, g: Stage) {
    IsWorker(s, w) && s.workers[w].Runs? && s.workers[w].file in s.files && s.files[s.workers[w].file].stage == g
  }

  predicate Enabled(s: State, step: Step) {
    match step
    case Open(_, _) => s.mode.InJs?
    case Api(f, p, _) => s.mode.InJs? && Live(s, f) && p != Ready && p != Opening
    case WaitDone(f) => s.mode.InJs? && Live(s, f)
    case CloseSync(f) => s.mode.InJs? && Live(s, f)
    case Stir(w) => IsWorker(s, w) && s.workers[w].Waiting?
    case Take(w) => IsWorker(s, w) && s.workers[w].Awake? && CanTake(s)
    case Rest(w) => IsWorker(s, w) && s.workers[w].Awake? && !CanTake(s)
    case Run(w, _) => RunsAt(s, w, Entered)
    case Post(w) => RunsAt(s, w, Done)
    case Clear(w) => RunsAt(s, w, Posted)
    case Pop => s.mode.InJs? && s.frames == [] && s.loopQ != []
    case Finish => (s.mode.Popped? || s.mode.Check?) && s.mode.file in s.files
    case Wake => s.mode.Sleep? && s.mode.file in s.loopQ
    case Return => s.mode.InJs? && s.frames != []
    case Throw => s.mode.InJs? && s.frames != []
    case Doze => s.mode.Drain? && !s.mode.asleep && s.mode.file in Held(s)
    case Delete => s.mode.Drain? && !s.mode.asleep && s.mode.file in s.files && s.mode.file !in Held(s)
  }

  function Next(s: State, step: Step): State
    requires Enabled(s, step)
  {
    match step
    case Open(withCall, sync) => OpenStep(s, withCall, sync)
    case Api(f, p, withCall) => ApiStep(s, f, p, withCall)
    case WaitDone(f) => Await(s, f, false)
    case CloseSync(f) => CloseStep(s, f)
    case Stir(w) => StirStep(s, w)
    case Take(w) => TakeStep(s, w)
    case Rest(w) => RestStep(s, w)
    case Run(w, error) => RunStep(s, w, error)
    case Post(w) => PostStep(s, w)
    case Clear(w) => ClearStep(s, w)
    case Pop => PopStep(s)
    case Finish => FinishStep(s)
    case Wake => Await(s, s.mode.file, s.mode.delete)
    case Return => ReturnStep(s)
    case Throw => ThrowStep(s)
    case Doze => s.(mode := Drain(s.mode.file, true))
    case Delete => DeleteStep(s, s.mode.file)
  }

  /** Read, Write, FStat and Close: a busy or closed file refuses, and nothing
      changes but for the error that is delivered on the next tick. */
  function ApiStep(s: State, f: nat, p: Phase, withCall: bool): State
    requires f in s.files && p != Ready
  {
    if s.files[f].Accepts() then Begin(s, f, p, withCall) else s
  }

  /** low_loop_clear_callback, then FinishPhase is next. */
  function Await(s: State, f: nat, delete: bool): State {
    s.(loopQ := Without(s.loopQ, f), mode := Check(f, delete))
  }

  /** A condition variable may wake a worker at any time. */
  function StirStep(s: State, w: int): State
    requires IsWorker(s, w)
  {
    s.(workers := s.workers[w := Awake])
  }

  /** The event loop takes its next callback. */
  function PopStep(s: State): State
    requires s.loopQ != []
  {
    s.(loopQ := DropAt(s.loopQ, 0), mode := Popped(s.loopQ[0]))
  }

  /** The completion callback returns to FinishPhase. */
  function ReturnStep(s: State): State
    requires s.frames != []
  {
    var top := s.frames[|s.frames| - 1];
    Leave(s.(frames := s.frames[..|s.frames| - 1]), top.file, top.delete)
  }

  /** An exception leaves the completion callback. It goes through FinishPhase and
      whoever called it, so nothing is deleted. */
  function ThrowStep(s: State): State
    requires s.frames != []
  {
    s.(frames := s.frames[..|s.frames| - 1])
  }

  /** Nothing to run: wake the destructors and wait. */
  function RestStep(s: State, w: int): State
    requires IsWorker(s, w)
  {
    s.(workers := s.workers[w := Waiting], mode := if s.mode.Drain? then Drain(s.mode.file, false) else s.mode)
  }

  /** OnData up to `mDataDone = true`. */
  function RunStep(s: State, w: int, error: bool): State
    requires RunsAt(s, w, Entered)
  {
    var f := s.workers[w].file;
    s.(files := s.files[f := s.files[f].WithData(error)], ops := Ran(s.ops, s.files[f].op))
  }

  function PostStep(s: State, w: int): State
    requires RunsAt(s, w, Done)
  {
    var f := s.workers[w].file;
    SetLoop(s.(files := s.files[f := s.files[f].(stage := Posted)]), f)
  }

  /** OnData has returned: the flag is cleared and the queues are looked at again. */
  function ClearStep(s: State, w: int): State
    requires RunsAt(s, w, Posted)
  {
    var f := s.workers[w].file;
    s.(files := s.files[f := s.files[f].(stage := Idle, runner := -1)], workers := s.workers[w := Awake])
  }

  /** low_fs_open and low_fs_open_sync: the constructor queues the file. */
  function OpenStep(s: State, withCall: bool, sync: bool): State {
    var f := s.created;
    var call := withCall && !sync;
    var t := s.(files := s.files[f := Opened(call, |s.ops|)], created := f + 1,
                ops := s.ops + [Op(f, Opening, call, 0, 0, 0, 0)],
                runRef := s.runRef + if call then 1 else 0);
    var u := SetData(t, f, 0);
    if sync then Await(u, f, false) else u
  }

  /** low_fs_close_sync: Close, refused or not, then the wait. */
  function CloseStep(s: State, f: nat): State
    requires f in s.files
  {
    Await(ApiStep(s, f, Closing, false), f, true)
  }

  /** low_data_thread_main: the first file that no other worker runs, of
      priority 0 before priority 1. */
  function TakeStep(s: State, w: int): State
    requires IsWorker(s, w) && CanTake(s)
  {
    var k := FirstFree(s.q0, Held(s));
    if k < |s.q0| then Start(s.(q0 := DropAt(s.q0, k)), w, s.q0[k])
    else
      var j := FirstFree(s.q1, Held(s));
      Start(s.(q1 := DropAt(s.q1, j)), w, s.q1[j])
  }

  function Start(s: State, w: int, f: nat): State
    requires IsWorker(s, w)
  {
    s.(workers := s.workers[w := Runs(f)],
       files := if f in s.files then s.files[f := s.files[f].(stage := Entered, runner := w)] else s.files)
  }

  /** OnLoop, or the FinishPhase call of a synchronous client. */
  function FinishStep(s: State): State
    requires (s.mode.Popped? || s.mode.Check?) && s.mode.file in s.files
  {
    var f := s.mode.file;
    if s.mode.Check? then FinishIn(s, f, s.mode.delete, false)
    else if s.files[f].closed then BeginDelete(s, f)
    else FinishIn(s, f, s.files[f].phase == Closing, true)
  }

  function DeleteStep(s: State, f: nat): State
    requires f in s.files
  {
    var x := s.files[f];
    s.(files := s.files - {f}, loopQ := Without(s.loopQ, f), mode := InJs,
       runRef := s.runRef - if x.call then 1 else 0,
       ops := if x.Busy() then Dropped(s.ops, x.op) else s.ops)
  }
}
