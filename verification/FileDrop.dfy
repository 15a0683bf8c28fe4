/** Two runs that show why the results have conditions. A closeSync on a busy file
    waits for the pending operation and then deletes the file. When the callback of
    that operation starts another one, this is never run nor answered; when it
    calls closeSync too, the file is deleted twice. */
module FileDrop {
  import opened Queues
  import opened FilePhases
  import opened FileProtocol
  import opened FileDeletes
  import opened FileRuns
  import opened FileEnds

  predicate Reaches(s: State, steps: seq<Step>, t: State) { Legal(s, steps) && Play(s, steps) == t }

  lemma {:induction false} Chain(s: State, a: seq<Step>, t: State, b: seq<Step>, u: State)
    requires Reaches(s, a, t) && Reaches(t, b, u)
    ensures Reaches(s, a + b, u)
    decreases |a|
  {
    hide Enabled, Next;
    if a == [] {
      assert a + b == b;
    } else {
      Chain(Next(s, a[0]), a[1..], t, b, u);
      assert (a + b)[1..] == a[1..] + b;
    }
  }

  lemma One(s: State, step: Step)
    requires Enabled(s, step)
    ensures Reaches(s, [step], Next(s, step))
  {
    hide Enabled, Next;
    var t := Next(s, step);
    assert [step][1..] == [];
    assert Legal(t, []) && Play(t, []) == t;
  }

  // ---- states with the one file 0 and one worker ------------------------------------

  function At(x: File, q0: seq<nat>, loopQ: seq<nat>, w: Worker, frames: seq<Frame>, mode: Mode, runRef: int,
              ops: seq<Op>): State
  {
    State(map[0 := x], 1, q0, [], loopQ, [w], frames, mode, 0, runRef, ops)
  }

  function OnWorker(x: File): File { x.(dataDone := true, failed := false, stage := Done, runner := 0) }

  function OffWorker(x: File): File { x.(stage := Idle, runner := -1) }

  /** The worker takes the queued file and makes its system call. */
  lemma TakeRunWith(x: File, error: bool, frames: seq<Frame>, mode: Mode, runRef: int, ops: seq<Op>)
    requires x.stage == Idle && x.op < |ops|
    ensures Reaches(At(x, [0], [], Awake, frames, mode, runRef, ops), [Take(0), Run(0, error)],
                    At(OnWorker(x).(failed := error), [], [], Runs(0), frames, mode, runRef, Ran(ops, x.op)))
  {
    var s := At(x, [0], [], Awake, frames, mode, runRef, ops);
    var t := At(x.(stage := Entered, runner := 0), [], [], Runs(0), frames, mode, runRef, ops);
    var u := At(OnWorker(x).(failed := error), [], [], Runs(0), frames, mode, runRef, Ran(ops, x.op));
    TakeOne(x, frames, mode, runRef, ops);
    RunOne(x, error, frames, mode, runRef, ops);
    hide *;
    Chain(s, [Take(0)], t, [Run(0, error)], u);
    assert [Take(0)] + [Run(0, error)] == [Take(0), Run(0, error)];
  }

  lemma TakeOne(x: File, frames: seq<Frame>, mode: Mode, runRef: int, ops: seq<Op>)
    requires x.stage == Idle
    ensures Reaches(At(x, [0], [], Awake, frames, mode, runRef, ops), [Take(0)],
                    At(x.(stage := Entered, runner := 0), [], [], Runs(0), frames, mode, runRef, ops))
  {
    var s := At(x, [0], [], Awake, frames, mode, runRef, ops);
    assert Held(s) == {} && FirstFree(s.q0, Held(s)) == 0;
    assert Next(s, Take(0)) == At(x.(stage := Entered, runner := 0), [], [], Runs(0), frames, mode, runRef, ops);
    One(s, Take(0));
  }

  lemma RunOne(x: File, error: bool, frames: seq<Frame>, mode: Mode, runRef: int, ops: seq<Op>)
    ensures Reaches(At(x.(stage := Entered, runner := 0), [], [], Runs(0), frames, mode, runRef, ops), [Run(0, error)],
                    At(OnWorker(x).(failed := error), [], [], Runs(0), frames, mode, runRef, Ran(ops, x.op)))
  {
    var t := At(x.(stage := Entered, runner := 0), [], [], Runs(0), frames, mode, runRef, ops);
    assert Next(t, Run(0, error))
        == At(OnWorker(x).(failed := error), [], [], Runs(0), frames, mode, runRef, Ran(ops, x.op));
    One(t, Run(0, error));
  }

  lemma TakeRun(x: File, frames: seq<Frame>, mode: Mode, runRef: int, ops: seq<Op>)
    requires x.stage == Idle && x.op < |ops|
    ensures Reaches(At(x, [0], [], Awake, frames, mode, runRef, ops), [Take(0), Run(0, false)],
                    At(OnWorker(x), [], [], Runs(0), frames, mode, runRef, Ran(ops, x.op)))
  {
    hide Reaches, At, Ran;
    TakeRunWith(x, false, frames, mode, runRef, ops);
    assert OnWorker(x).(failed := false) == OnWorker(x);
  }

  /** The worker posts the completion and lets go of the file. */
  lemma PostClear(x: File, frames: seq<Frame>, mode: Mode, runRef: int, ops: seq<Op>)
    requires x.stage == Done && x.runner == 0
    ensures Reaches(At(x, [], [], Runs(0), frames, mode, runRef, ops), [Post(0), Clear(0)],
                    At(OffWorker(x), [], [0], Awake, frames, mode, runRef, ops))
  {
    var s := At(x, [], [], Runs(0), frames, mode, runRef, ops);
    var t := At(x.(stage := Posted), [], [0], Runs(0), frames, mode, runRef, ops);
    PostOne(x, frames, mode, runRef, ops);
    ClearOne(x, frames, mode, runRef, ops);
    hide *;
    Chain(s, [Post(0)], t, [Clear(0)], At(OffWorker(x), [], [0], Awake, frames, mode, runRef, ops));
    assert [Post(0)] + [Clear(0)] == [Post(0), Clear(0)];
  }

  lemma PostOne(x: File, frames: seq<Frame>, mode: Mode, runRef: int, ops: seq<Op>)
    requires x.stage == Done
    ensures Reaches(At(x, [], [], Runs(0), frames, mode, runRef, ops), [Post(0)],
                    At(x.(stage := Posted), [], [0], Runs(0), frames, mode, runRef, ops))
  {
    var s := At(x, [], [], Runs(0), frames, mode, runRef, ops);
    assert Append([], 0) == [0];
    assert Next(s, Post(0)) == At(x.(stage := Posted), [], [0], Runs(0), frames, mode, runRef, ops);
    One(s, Post(0));
  }

  lemma ClearOne(x: File, frames: seq<Frame>, mode: Mode, runRef: int, ops: seq<Op>)
    ensures Reaches(At(x.(stage := Posted), [], [0], Runs(0), frames, mode, runRef, ops), [Clear(0)],
                    At(OffWorker(x), [], [0], Awake, frames, mode, runRef, ops))
  {
    var t := At(x.(stage := Posted), [], [0], Runs(0), frames, mode, runRef, ops);
    assert Next(t, Clear(0)) == At(OffWorker(x), [], [0], Awake, frames, mode, runRef, ops);
    One(t, Clear(0));
  }

  /** closeSync on an open file that is not busy. */
  lemma CloseOne(x: File, frames: seq<Frame>, ops: seq<Op>)
    requires x.Accepts() && x.advertised && x.stage == Idle
    ensures Reaches(At(x, [], [0], Awake, frames, InJs, 0, ops), [CloseSync(0)],
                    At(x.Accept(Closing, false, |ops|), [0], [], Awake, frames, Check(0, true), 0,
                       ops + [Op(0, Closing, false, 0, 0, 0, 0)]))
  {
    var s := At(x, [], [0], Awake, frames, InJs, 0, ops);
    var u := At(x.Accept(Closing, false, |ops|), [0], [0], Awake, frames, InJs, 0,
                ops + [Op(0, Closing, false, 0, 0, 0, 0)]);
    assert ApiStep(s, 0, Closing, false) == u by { CloseBegins(x, frames, ops); }
    hide ApiStep, Append, Woken;
    assert Without([0], 0) == [];
    assert Next(s, CloseSync(0)) == Await(u, 0, true);
    One(s, CloseSync(0));
  }

  lemma CloseBegins(x: File, frames: seq<Frame>, ops: seq<Op>)
    requires x.Accepts() && x.stage == Idle
    ensures ApiStep(At(x, [], [0], Awake, frames, InJs, 0, ops), 0, Closing, false) ==
            At(x.Accept(Closing, false, |ops|), [0], [0], Awake, frames, InJs, 0,
               ops + [Op(0, Closing, false, 0, 0, 0, 0)])
  {
    assert Append([], 0) == [0] && Woken([Awake]) == [Awake];
  }

  // ---- the run ------------------------------------------------------------------------

  function Fresh(): State { State(map[], 0, [], [], [], [Awake], [], InJs, 0, 0, []) }

  /** An open file at rest, and one that reads. */
  function Open0(): File { File(Ready, true, false, false, false, true, 0, Idle, -1) }

  function Reading0(op: nat): File { File(Reading, false, false, false, true, true, op, Idle, -1) }

  function Op0(): Op { Op(0, Opening, false, 1, 1, 0, 0) }

  function Op1(): Op { Op(0, Reading, true, 1, 1, 1, 0) }

  function New(): Op { Op(0, Reading, true, 0, 0, 0, 0) }

  // openSync

  function Opening1(): State {
    At(Opened(false, 0), [0], [], Awake, [], Check(0, false), 0, [Op(0, Opening, false, 0, 0, 0, 0)])
  }

  function Opening2(): State {
    At(OnWorker(Opened(false, 0)), [], [], Runs(0), [], Check(0, false), 0, [Op0().(ends := 0)])
  }

  function Opening3(): State { At(OnWorker(Open0()), [], [], Runs(0), [], InJs, 0, [Op0()]) }

  function AfterOpen(): State { At(Open0(), [], [0], Awake, [], InJs, 0, [Op0()]) }

  lemma Open1()
    ensures Reaches(Fresh(), [Open(false, true)], Opening1())
  {
    assert Append([], 0) == [0] && !Doomed(Fresh(), 0);
    assert Without([], 0) == [];
    assert Next(Fresh(), Open(false, true)) == Opening1();
    One(Fresh(), Open(false, true));
  }

  lemma Open2()
    ensures Reaches(Opening2(), [Finish], Opening3())
  {
    assert Next(Opening2(), Finish) == Opening3();
    One(Opening2(), Finish);
  }

  function OpenSteps(): seq<Step> { [Open(false, true)] + [Take(0), Run(0, false)] + [Finish] + [Post(0), Clear(0)] }

  lemma OpenRun()
    ensures Reaches(Fresh(), OpenSteps(), AfterOpen())
  {
    TakeRun(Opened(false, 0), [], Check(0, false), 0, [Op(0, Opening, false, 0, 0, 0, 0)]);
    assert Reaches(Opening1(), [Take(0), Run(0, false)], Opening2());
    Open1();
    Open2();
    PostClear(OnWorker(Open0()), [], InJs, 0, [Op0()]);
    assert Reaches(Opening3(), [Post(0), Clear(0)], AfterOpen());
    hide Reaches, Fresh, Opening1, Opening2, Opening3, AfterOpen;
    Chain(Fresh(), [Open(false, true)], Opening1(), [Take(0), Run(0, false)], Opening2());
    Chain(Fresh(), [Open(false, true)] + [Take(0), Run(0, false)], Opening2(), [Finish], Opening3());
    Chain(Fresh(), [Open(false, true)] + [Take(0), Run(0, false)] + [Finish], Opening3(), [Post(0), Clear(0)],
        AfterOpen());
  }

  // A read, and closeSync before it is done: Close refuses, the wait goes on
  // until the callback of the read is called.

  function Reading1(): State { At(Reading0(1), [0], [0], Awake, [], InJs, 1, [Op0(), New()]) }

  function Reading2(): State { At(Reading0(1), [0], [], Awake, [], Check(0, true), 1, [Op0(), New()]) }

  function Reading3(): State {
    At(OnWorker(Reading0(1)), [], [], Runs(0), [], Check(0, true), 1, [Op0(), New().(runs := 1)])
  }

  function Reading4(): State {
    At(OnWorker(Open0().(op := 1)), [], [], Runs(0), [Frame(0, true)], InJs, 0, [Op0(), Op1()])
  }

  function InCallback(): State { At(Open0().(op := 1), [], [0], Awake, [Frame(0, true)], InJs, 0, [Op0(), Op1()]) }

  lemma Read1()
    ensures Reaches(AfterOpen(), [Api(0, Reading, true)], Reading1())
  {
    assert Append([], 0) == [0];
    assert Next(AfterOpen(), Api(0, Reading, true)) == Reading1();
    One(AfterOpen(), Api(0, Reading, true));
  }

  lemma Read2()
    ensures Reaches(Reading1(), [CloseSync(0)], Reading2())
  {
    assert Without([0], 0) == [];
    assert Next(Reading1(), CloseSync(0)) == Reading2();
    One(Reading1(), CloseSync(0));
  }

  lemma Read3()
    ensures Reaches(Reading3(), [Finish], Reading4())
  {
    assert Next(Reading3(), Finish) == Reading4();
    One(Reading3(), Finish);
  }

  function ReadSteps(): seq<Step> {
    [Api(0, Reading, true)] + [CloseSync(0)] + [Take(0), Run(0, false)] + [Finish] + [Post(0), Clear(0)]
  }

  lemma ReadRun()
    ensures Reaches(AfterOpen(), ReadSteps(), InCallback())
  {
    TakeRun(Reading0(1), [], Check(0, true), 1, [Op0(), New()]);
    assert Reaches(Reading2(), [Take(0), Run(0, false)], Reading3());
    PostClear(OnWorker(Open0().(op := 1)), [Frame(0, true)], InJs, 0, [Op0(), Op1()]);
    assert Reaches(Reading4(), [Post(0), Clear(0)], InCallback());
    Read1();
    Read2();
    Read3();
    hide Reaches, AfterOpen, Reading1, Reading2, Reading3, Reading4, InCallback;
    Chain(AfterOpen(), [Api(0, Reading, true)], Reading1(), [CloseSync(0)], Reading2());
    Chain(AfterOpen(), [Api(0, Reading, true)] + [CloseSync(0)], Reading2(), [Take(0), Run(0, false)], Reading3());
    Chain(AfterOpen(), [Api(0, Reading, true)] + [CloseSync(0)] + [Take(0), Run(0, false)], Reading3(), [Finish],
        Reading4());
    Chain(AfterOpen(), [Api(0, Reading, true)] + [CloseSync(0)] + [Take(0), Run(0, false)] + [Finish], Reading4(),
          [Post(0), Clear(0)], InCallback());
  }

  // The callback starts another read and returns.

  function Dropping1(): State {
    At(Reading0(2), [0], [0], Awake, [Frame(0, true)], InJs, 1, [Op0(), Op1(), New()])
  }

  function Dropping2(): State { At(Reading0(2), [], [0], Awake, [], Drain(0, false), 1, [Op0(), Op1(), New()]) }

  function Deleted(): State {
    State(map[], 1, [], [], [], [Awake], [], InJs, 0, 0, [Op0(), Op1(), New().(drops := 1)])
  }

  lemma Drop1()
    ensures Reaches(InCallback(), [Api(0, Reading, true)], Dropping1())
  {
    assert Append([], 0) == [0] && Frame(0, true) in InCallback().frames;
    assert Next(InCallback(), Api(0, Reading, true)) == Dropping1();
    One(InCallback(), Api(0, Reading, true));
  }

  lemma Drop2()
    ensures Reaches(Dropping1(), [Return], Dropping2())
  {
    assert Without([0], 0) == [] && Without([], 0) == [];
    assert Next(Dropping1(), Return) == Dropping2();
    One(Dropping1(), Return);
  }

  lemma Drop3()
    ensures Reaches(Dropping2(), [Delete], Deleted())
  {
    assert Without([0], 0) == [];
    assert Next(Dropping2(), Delete) == Deleted();
    One(Dropping2(), Delete);
  }

  function DropSteps(): seq<Step> { [Api(0, Reading, true)] + [Return] + [Delete] }

  lemma DropRun()
    ensures Reaches(InCallback(), DropSteps(), Deleted())
  {
    Drop1();
    Drop2();
    Drop3();
    hide Reaches, InCallback, Dropping1, Dropping2, Deleted;
    Chain(InCallback(), [Api(0, Reading, true)], Dropping1(), [Return], Dropping2());
    Chain(InCallback(), [Api(0, Reading, true)] + [Return], Dropping2(), [Delete], Deleted());
  }

  /** The whole run: the read accepted last is dropped. */
  lemma SomeOperationIsDropped()
    ensures Initial(Fresh()) && Reaches(Fresh(), OpenSteps() + ReadSteps() + DropSteps(), Deleted())
    ensures var o := Deleted().ops[2]; o.withCall && o.runs == 0 && o.calls == 0 && o.drops == 1
  {
    OpenRun();
    ReadRun();
    DropRun();
    hide Reaches, AfterOpen, InCallback, OpenSteps, ReadSteps, DropSteps;
    Chain(Fresh(), OpenSteps(), AfterOpen(), ReadSteps(), InCallback());
    Chain(Fresh(), OpenSteps() + ReadSteps(), InCallback(), DropSteps(), Deleted());
  }

  // The callback calls closeSync as well, and that one goes through.

  function Closing0(): File { File(Closing, false, false, false, false, false, 2, Idle, -1) }

  function NewClose(): Op { Op(0, Closing, false, 0, 0, 0, 0) }

  function Nested1(): State {
    At(Closing0(), [0], [], Awake, [Frame(0, true)], Check(0, true), 0, [Op0(), Op1(), NewClose()])
  }

  function Nested2(): State {
    At(OnWorker(Closing0()), [], [], Runs(0), [Frame(0, true)], Check(0, true), 0,
        [Op0(), Op1(), NewClose().(runs := 1)])
  }

  function Closed0(): File { File(Ready, true, false, true, false, false, 2, Idle, -1) }

  function NestedOps(): seq<Op> { [Op0(), Op1(), NewClose().(runs := 1, ends := 1)] }

  function Nested3(): State {
    At(OnWorker(Closed0()), [], [], Runs(0), [Frame(0, true)], Drain(0, false), 0, NestedOps())
  }

  function Nested4(): State { At(Closed0(), [], [0], Awake, [Frame(0, true)], Drain(0, false), 0, NestedOps()) }

  function Nested5(): State { State(map[], 1, [], [], [], [Awake], [Frame(0, true)], InJs, 0, 0, NestedOps()) }

  function Nested6(): State { State(map[], 1, [], [], [], [Awake], [], Drain(0, false), 0, 0, NestedOps()) }

  lemma Nest1()
    ensures Reaches(InCallback(), [CloseSync(0)], Nested1()) && Doomed(InCallback(), 0)
  {
    CloseOne(Open0().(op := 1), [Frame(0, true)], [Op0(), Op1()]);
    assert Frame(0, true) in InCallback().frames;
    hide Reaches, Enabled, Next;
  }

  lemma Nest3()
    ensures Reaches(Nested2(), [Finish], Nested3())
  {
    assert Without([], 0) == [];
    assert Next(Nested2(), Finish) == Nested3();
    One(Nested2(), Finish);
  }

  lemma Nest5()
    ensures Reaches(Nested4(), [Delete], Nested5())
  {
    assert Without([0], 0) == [];
    assert Next(Nested4(), Delete) == Nested5();
    One(Nested4(), Delete);
  }

  lemma Nest6()
    ensures Reaches(Nested5(), [Return], Nested6())
  {
    assert Without([], 0) == [];
    assert Next(Nested5(), Return) == Nested6();
    One(Nested5(), Return);
  }

  function NestedSteps(): seq<Step> {
    [CloseSync(0)] + [Take(0), Run(0, false)] + [Finish] + [Post(0), Clear(0)] + [Delete] + [Return]
  }

  lemma NestedRun()
    ensures Reaches(InCallback(), NestedSteps(), Nested6())
  {
    TakeRun(Closing0(), [Frame(0, true)], Check(0, true), 0, [Op0(), Op1(), NewClose()]);
    assert Reaches(Nested1(), [Take(0), Run(0, false)], Nested2());
    PostClear(OnWorker(Closed0()), [Frame(0, true)], Drain(0, false), 0, NestedOps());
    assert Reaches(Nested3(), [Post(0), Clear(0)], Nested4());
    Nest1();
    Nest3();
    Nest5();
    Nest6();
    hide Reaches, InCallback, Nested1, Nested2, Nested3, Nested4, Nested5, Nested6;
    Chain(InCallback(), [CloseSync(0)], Nested1(), [Take(0), Run(0, false)], Nested2());
    Chain(InCallback(), [CloseSync(0)] + [Take(0), Run(0, false)], Nested2(), [Finish], Nested3());
    Chain(InCallback(), [CloseSync(0)] + [Take(0), Run(0, false)] + [Finish], Nested3(), [Post(0), Clear(0)],
        Nested4());
    Chain(InCallback(), [CloseSync(0)] + [Take(0), Run(0, false)] + [Finish] + [Post(0), Clear(0)], Nested4(), [Delete],
          Nested5());
    Chain(InCallback(), [CloseSync(0)] + [Take(0), Run(0, false)] + [Finish] + [Post(0), Clear(0)] + [Delete],
        Nested5(), [Return], Nested6());
  }

  /** The whole run: the outer closeSync is about to delete a file that is gone. */
  lemma SomeFileIsDeletedTwice()
    ensures Initial(Fresh()) && Reaches(Fresh(), OpenSteps() + ReadSteps() + NestedSteps(), Nested6())
    ensures DeletesAgain(Nested6())
  {
    OpenRun();
    ReadRun();
    NestedRun();
    hide Reaches, AfterOpen, InCallback, OpenSteps, ReadSteps, NestedSteps;
    Chain(Fresh(), OpenSteps(), AfterOpen(), ReadSteps(), InCallback());
    Chain(Fresh(), OpenSteps() + ReadSteps(), InCallback(), NestedSteps(), Nested6());
  }
}
