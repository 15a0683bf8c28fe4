/** Three runs that leave a closed file for good: an open that fails, a closeSync
    whose close fails, and a close whose callback throws. */
module FileStray {
  import opened Queues
  import opened FilePhases
  import opened FileProtocol
  import opened FileRuns
  import opened FileDrop
  import opened FileLinger

  // ---- an asynchronous open fails -------------------------------------------------------------

  function Failing(): File { Opened(true, 0) }

  function OpenOp(): Op { Op(0, Opening, true, 0, 0, 0, 0) }

  function Failed1(): State { At(Failing(), [0], [], Awake, [], InJs, 1, [OpenOp()]) }

  function Failed2(): State {
    At(Failing().(dataDone := true, failed := true, stage := Done, runner := 0), [], [], Runs(0), [], InJs, 1,
       [OpenOp().(runs := 1)])
  }

  function Failed3(): State {
    At(Failing().(dataDone := true, failed := true), [], [0], Awake, [], InJs, 1, [OpenOp().(runs := 1)])
  }

  function Failed4(): State {
    At(Failing().(dataDone := true, failed := true), [], [], Awake, [], Popped(0), 1, [OpenOp().(runs := 1)])
  }

  lemma Fail1()
    ensures Reaches(Fresh(), [Open(true, false)], Failed1())
  {
    assert Append([], 0) == [0];
    assert Next(Fresh(), Open(true, false)) == Failed1();
    One(Fresh(), Open(true, false));
  }

  lemma Fail2()
    ensures Reaches(Failed1(), [Take(0), Run(0, true)], Failed2())
  {
    TakeRunWith(Failing(), true, [], InJs, 1, [OpenOp()]);
  }

  lemma Fail4()
    ensures Reaches(Failed3(), [Pop], Failed4())
  {
    assert DropAt([0], 0) == [];
    assert Next(Failed3(), Pop) == Failed4();
    One(Failed3(), Pop);
  }

  lemma Fail3()
    ensures Reaches(Failed2(), [Post(0), Clear(0)], Failed3())
  {
    PostClear(Failing().(dataDone := true, failed := true, stage := Done, runner := 0), [], InJs, 1,
        [OpenOp().(runs := 1)]);
  }

  lemma FreshIsInitial()
    ensures Initial(Fresh())
  {}

  lemma Failed4Fails()
    ensures Strands(Failed4(), Finish, 0)
  {}

  function FailSteps(): seq<Step> { [Open(true, false)] + [Take(0), Run(0, true)] + [Post(0), Clear(0)] + [Pop] }

  /** An asynchronous open that fails: the next step strands the file. */
  lemma FailedOpenStays()
    ensures Initial(Fresh()) && Reaches(Fresh(), FailSteps(), Failed4())
    ensures Strands(Failed4(), Finish, 0)
  {
    hide Reaches, Strands, Failed1, Failed2, Failed3, Fresh, At;
    FreshIsInitial();
    Failed4Fails();
    Fail1();
    Fail2();
    Fail3();
    Fail4();
    Chain(Fresh(), [Open(true, false)], Failed1(), [Take(0), Run(0, true)], Failed2());
    Chain(Fresh(), [Open(true, false)] + [Take(0), Run(0, true)], Failed2(), [Post(0), Clear(0)], Failed3());
    Chain(Fresh(), [Open(true, false)] + [Take(0), Run(0, true)] + [Post(0), Clear(0)], Failed3(), [Pop], Failed4());
  }

  // ---- a closeSync fails ------------------------------------------------------------------------

  function Ending(call: bool): File { File(Closing, false, false, false, call, false, 1, Idle, -1) }

  function CloseOp(call: bool): Op { Op(0, Closing, call, 0, 0, 0, 0) }

  function Ended0(call: bool): Op { CloseOp(call).(runs := 1) }

  function Ending1(): State { At(Ending(false), [0], [], Awake, [], Check(0, true), 0, [Op0(), CloseOp(false)]) }

  function Ending2(): State { At(Ending(false), [0], [], Awake, [], Sleep(0, true), 0, [Op0(), CloseOp(false)]) }

  function Ending3(): State {
    At(OnWorker(Ending(false)).(failed := true), [], [], Runs(0), [], Sleep(0, true), 0, [Op0(), Ended0(false)])
  }

  function Ending4(): State {
    At(Ending(false).(dataDone := true, failed := true), [], [0], Awake, [], Sleep(0, true), 0,
       [Op0(), Ended0(false)])
  }

  function Ending5(): State {
    At(Ending(false).(dataDone := true, failed := true), [], [], Awake, [], Check(0, true), 0,
       [Op0(), Ended0(false)])
  }

  lemma End1()
    ensures Reaches(AfterOpen(), [CloseSync(0)], Ending1())
  {
    CloseOne(Open0(), [], [Op0()]);
    hide Reaches;
    assert [Op0()] + [CloseOp(false)] == [Op0(), CloseOp(false)];
  }

  lemma End2()
    ensures Reaches(Ending1(), [Finish], Ending2())
  {
    assert Next(Ending1(), Finish) == Ending2();
    One(Ending1(), Finish);
  }

  lemma End3()
    ensures Reaches(Ending2(), [Take(0), Run(0, true)], Ending3())
  {
    TakeRunWith(Ending(false), true, [], Sleep(0, true), 0, [Op0(), CloseOp(false)]);
  }

  lemma End4()
    ensures Reaches(Ending3(), [Post(0), Clear(0)], Ending4())
  {
    PostClear(OnWorker(Ending(false)).(failed := true), [], Sleep(0, true), 0, [Op0(), Ended0(false)]);
  }

  lemma End5()
    ensures Reaches(Ending4(), [Wake], Ending5())
  {
    assert Without([0], 0) == [];
    assert Next(Ending4(), Wake) == Ending5();
    One(Ending4(), Wake);
  }

  function EndSteps(): seq<Step> {
    [CloseSync(0)] + [Finish] + [Take(0), Run(0, true)] + [Post(0), Clear(0)] + [Wake]
  }

  lemma EndRun()
    ensures Reaches(AfterOpen(), EndSteps(), Ending5())
  {
    End1();
    End2();
    End3();
    End4();
    End5();
    hide Reaches, AfterOpen, Ending1, Ending2, Ending3, Ending4, Ending5;
    Chain(AfterOpen(), [CloseSync(0)], Ending1(), [Finish], Ending2());
    Chain(AfterOpen(), [CloseSync(0)] + [Finish], Ending2(), [Take(0), Run(0, true)], Ending3());
    Chain(AfterOpen(), [CloseSync(0)] + [Finish] + [Take(0), Run(0, true)], Ending3(), [Post(0), Clear(0)], Ending4());
    Chain(AfterOpen(), [CloseSync(0)] + [Finish] + [Take(0), Run(0, true)] + [Post(0), Clear(0)], Ending4(), [Wake],
        Ending5());
  }

  lemma Ending5Fails()
    ensures Strands(Ending5(), Finish, 0)
  {}

  /** closeSync throws because close failed: the next step strands the file. */
  lemma FailedCloseStays()
    ensures Initial(Fresh()) && Reaches(Fresh(), OpenSteps() + EndSteps(), Ending5())
    ensures Strands(Ending5(), Finish, 0)
  {
    hide Reaches, Strands, Ending5, AfterOpen, OpenSteps, EndSteps;
    FreshIsInitial();
    Ending5Fails();
    OpenRun();
    EndRun();
    Chain(Fresh(), OpenSteps(), AfterOpen(), EndSteps(), Ending5());
  }

  // ---- the callback of a close throws -----------------------------------------------------------

  function Popped1(): State { At(Open0(), [], [], Awake, [], Popped(0), 0, [Op0()]) }

  function Quiet(): State { At(Open0(), [], [], Awake, [], InJs, 0, [Op0()]) }

  function Calling1(): State { At(Ending(true), [0], [], Awake, [], InJs, 1, [Op0(), CloseOp(true)]) }

  function Calling2(): State { At(OnWorker(Ending(true)), [], [], Runs(0), [], InJs, 1, [Op0(), Ended0(true)]) }

  function Calling3(): State {
    At(Ending(true).(dataDone := true), [], [0], Awake, [], InJs, 1, [Op0(), Ended0(true)])
  }

  function Calling4(): State {
    At(Ending(true).(dataDone := true), [], [], Awake, [], Popped(0), 1, [Op0(), Ended0(true)])
  }

  function Calling5(): State {
    At(File(Ready, true, false, true, false, false, 1, Idle, -1), [], [], Awake, [Frame(0, true)], InJs, 0,
       [Op0(), Ended0(true).(ends := 1, calls := 1)])
  }

  lemma Call1()
    ensures Reaches(AfterOpen(), [Pop], Popped1()) && Reaches(Popped1(), [Finish], Quiet())
  {
    assert DropAt([0], 0) == [];
    assert Next(AfterOpen(), Pop) == Popped1();
    One(AfterOpen(), Pop);
    assert Next(Popped1(), Finish) == Quiet();
    One(Popped1(), Finish);
  }

  lemma Call2()
    ensures Reaches(Quiet(), [Api(0, Closing, true)], Calling1())
  {
    assert Append([], 0) == [0];
    assert Next(Quiet(), Api(0, Closing, true)) == Calling1();
    One(Quiet(), Api(0, Closing, true));
  }

  lemma Call3()
    ensures Reaches(Calling1(), [Take(0), Run(0, false)], Calling2())
  {
    TakeRun(Ending(true), [], InJs, 1, [Op0(), CloseOp(true)]);
  }

  lemma Call4()
    ensures Reaches(Calling2(), [Post(0), Clear(0)], Calling3())
  {
    PostClear(OnWorker(Ending(true)), [], InJs, 1, [Op0(), Ended0(true)]);
  }

  lemma Call5()
    ensures Reaches(Calling3(), [Pop], Calling4())
  {
    assert DropAt([0], 0) == [];
    assert Next(Calling3(), Pop) == Calling4();
    One(Calling3(), Pop);
  }

  lemma Call6()
    ensures Reaches(Calling4(), [Finish], Calling5())
  {
    assert Next(Calling4(), Finish) == Calling5();
    One(Calling4(), Finish);
  }

  function CallSteps(): seq<Step> {
    [Pop] + [Finish] + [Api(0, Closing, true)] + [Take(0), Run(0, false)] + [Post(0), Clear(0)] + [Pop] + [Finish]
  }

  lemma CallRun()
    ensures Reaches(AfterOpen(), CallSteps(), Calling5())
  {
    Call1();
    Call2();
    Call3();
    Call4();
    Call5();
    Call6();
    hide Reaches, AfterOpen, Popped1, Quiet, Calling1, Calling2, Calling3, Calling4, Calling5;
    var a := [Pop] + [Finish];
    Chain(AfterOpen(), [Pop], Popped1(), [Finish], Quiet());
    Chain(AfterOpen(), a, Quiet(), [Api(0, Closing, true)], Calling1());
    var b := a + [Api(0, Closing, true)];
    Chain(AfterOpen(), b, Calling1(), [Take(0), Run(0, false)], Calling2());
    var c := b + [Take(0), Run(0, false)];
    Chain(AfterOpen(), c, Calling2(), [Post(0), Clear(0)], Calling3());
    var d := c + [Post(0), Clear(0)];
    Chain(AfterOpen(), d, Calling3(), [Pop], Calling4());
    Chain(AfterOpen(), d + [Pop], Calling4(), [Finish], Calling5());
  }

  lemma Calling5Fails()
    ensures Strands(Calling5(), Throw, 0)
  {}

  /** The close went well; if its callback throws, the file is stranded. */
  lemma ThrownCallbackStays()
    ensures Initial(Fresh()) && Reaches(Fresh(), OpenSteps() + CallSteps(), Calling5())
    ensures Strands(Calling5(), Throw, 0) && Enabled(Calling5(), Throw)
  {
    hide Reaches, Strands, AfterOpen, OpenSteps, CallSteps;
    FreshIsInitial();
    Calling5Fails();
    OpenRun();
    CallRun();
    Chain(Fresh(), OpenSteps(), AfterOpen(), CallSteps(), Calling5());
  }
}
