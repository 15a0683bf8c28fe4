/** Deletions under way. Each closeSync orders one, and so does the event loop for a
    file that is closing or closed; each ends with the file being deleted, or with
    an exception that gets in the way. What is ordered for a file that is not
    there, or a second time, deletes a file that is gone. */
module FileDeletes {
  import opened Queues
  import opened FilePhases
  import opened FileProtocol
  import opened FileSafety
  import opened FileOpens

  /** The code thread is on its way to delete the file. */
  predicate Deleting(m: Mode, f: nat) {
    match m
    case Drain(g, _) => g == f
    case Check(g, delete) => g == f && delete
    case Sleep(g, delete) => g == f && delete
    case _ => false
  }

  /** How many deletions of the file are under way. */
  function Orders(s: State, f: nat): int {
    multiset(s.frames)[Frame(f, true)] + if Deleting(s.mode, f) then 1 else 0
  }

  /** Deletions under way beyond those that find a file. */
  function Excess(s: State, f: nat): int { Orders(s, f) - if f in s.files then 1 else 0 }

  /** The step orders a deletion: closeSync, or OnLoop for a closing or closed file. */
  predicate Begins(s: State, step: Step, f: nat) {
    || step == CloseSync(f)
    || (step.Finish? && s.mode == Popped(f) && f in s.files
        && var x := s.files[f]; x.closed || (x.phase == Closing && x.dataDone && !Raises(x)))
  }

  /** An exception gets in the way of a deletion: FinishPhase throws, or the callback
      does that FinishPhase called. */
  predicate Spares(s: State, step: Step, f: nat) {
    || (step.Throw? && s.frames != [] && s.frames[|s.frames| - 1] == Frame(f, true))
    || (step.Finish? && s.mode == Check(f, true) && f in s.files && Raises(s.files[f]))
  }

  // ---- the law of conservation -------------------------------------------------------------

  /** Every step: the excess changes by what is ordered and what is spared, and in
      no other way, deletion itself included. */
  lemma ExcessStep(s: State, step: Step, f: nat)
    requires Enabled(s, step) && !(step.Open? && f == s.created)
    ensures Excess(Next(s, step), f) ==
            Excess(s, f) + (if Begins(s, step, f) then 1 else 0) - (if Spares(s, step, f) then 1 else 0)
  {
    hide Without, FinishStep, OpenStep, ApiStep, CloseStep, TakeStep, RunStep, PostStep,
        ClearStep, DeleteStep, CanTake, Held;
    match step
    case Finish => FinishExcess(s, f);
    case Return => PopOrder(s, f);
    case Throw => PopOrder(s, f);
    case Open(_, _) => CallExcess(s, step, f);
    case Api(_, _, _) => CallExcess(s, step, f);
    case CloseSync(_) => CallExcess(s, step, f);
    case _ => OtherExcess(s, step, f);
  }

  lemma CallExcess(s: State, step: Step, f: nat)
    requires Enabled(s, step) && !(step.Open? && f == s.created)
    requires step.Open? || step.Api? || step.CloseSync?
    ensures Excess(Next(s, step), f) == Excess(s, f) + if step == CloseSync(f) then 1 else 0
  {
    hide Without, Append, Woken;
  }

  lemma OtherExcess(s: State, step: Step, f: nat)
    requires Enabled(s, step)
    requires !step.Finish? && !step.Return? && !step.Throw? && !step.Open? && !step.Api? && !step.CloseSync?
    ensures Excess(Next(s, step), f) == Excess(s, f)
  {
    hide Without, Append, DropAt, FirstFree, CanTake, Held, Ran, Dropped;
  }

  /** The top frame goes. */
  lemma PopOrder(s: State, f: nat)
    requires s.frames != []
    ensures var n := |s.frames| - 1;
            multiset(s.frames[..n])[Frame(f, true)] ==
            multiset(s.frames)[Frame(f, true)] - if s.frames[n] == Frame(f, true) then 1 else 0
  {
    var n := |s.frames| - 1;
    assert s.frames == s.frames[..n] + [s.frames[n]];
  }

  lemma FinishExcess(s: State, f: nat)
    requires Enabled(s, Finish)
    ensures Excess(FinishStep(s), f) ==
            Excess(s, f) + (if Begins(s, Finish, f) then 1 else 0) - (if Spares(s, Finish, f) then 1 else 0)
  {
    hide Without, FinishIn;
    var g := s.mode.file;
    if s.mode.Check? {
      FinishInOrders(s, g, s.mode.delete, false, f);
    } else if !s.files[g].closed {
      FinishInOrders(s, g, s.files[g].phase == Closing, true, f);
    }
  }

  lemma FinishInOrders(s: State, g: nat, delete: bool, loop: bool, f: nat)
    requires g in s.files && (loop ==> delete == (s.files[g].phase == Closing))
    ensures var x, t := s.files[g], FinishIn(s, g, delete, loop);
            && t.files.Keys == s.files.Keys
            && Orders(t, f) == multiset(s.frames)[Frame(f, true)] +
                 if g == f && delete && (loop ==> x.dataDone) && !Raises(x) then 1 else 0
  {
    hide Without, Ended;
  }

  /** A new file takes nothing over. */
  lemma OpenExcess(s: State, withCall: bool, sync: bool)
    requires s.mode.InJs?
    ensures Excess(OpenStep(s, withCall, sync), s.created) <= Excess(s, s.created)
  {
    hide Without, Append, Woken;
  }

  // ---- sound states ---------------------------------------------------------------------------

  /** No closeSync is called on a file from inside a callback after which that
      same file is deleted. A caller can tell: it is the callback that an earlier
      closeSync of the file is waiting for, or that of its close. */
  predicate Careful(s: State, step: Step) { step.CloseSync? ==> !Doomed(s, step.file) }

  /** Each deletion under way finds its file. */
  ghost predicate Sound(s: State) { Inv(s) && forall f: nat :: Excess(s, f) <= 0 }

  /** The code thread deletes a file that is gone. */
  predicate DeletesAgain(s: State) { s.mode.Drain? && s.mode.file !in s.files }

  /** What is ordered where nothing is under way finds its file. */
  lemma BeginsSafely(s: State, step: Step, f: nat)
    requires Inv(s) && Enabled(s, step) && Begins(s, step, f) && Careful(s, step)
    ensures Excess(s, f) == -1
  {
    assert step.Finish? ==> s.frames == [];
  }

  lemma KeepsSound(s: State, step: Step)
    requires Sound(s) && Enabled(s, step) && Careful(s, step)
    ensures Sound(Next(s, step))
  {
    KeepsStep(s, step);
    hide Inv, Next, Enabled, Begins, Spares, Excess, Careful;
    forall f: nat ensures Excess(Next(s, step), f) <= 0 { StaysGood(s, step, f); }
  }

  lemma StaysGood(s: State, step: Step, f: nat)
    requires Inv(s) && Excess(s, f) <= 0 && Enabled(s, step) && Careful(s, step)
    ensures Excess(Next(s, step), f) <= 0
  {
    hide Inv, Excess, Begins, Spares, Doomed, OpenStep;
    if step.Open? && f == s.created {
      OpenExcess(s, step.withCall, step.sync);
    } else {
      ExcessStep(s, step, f);
      if Begins(s, step, f) { BeginsSafely(s, step, f); }
    }
  }

  lemma SoundFindsAll(s: State)
    requires Sound(s)
    ensures !DeletesAgain(s)
    ensures forall i | 0 <= i < |s.frames| && s.frames[i].delete :: s.frames[i].file in s.files
    ensures forall i, j | 0 <= i < j < |s.frames| && s.frames[i].delete && s.frames[j].delete ::
              s.frames[i].file != s.frames[j].file
  {
    hide Inv;
    if s.mode.Drain? { assert Excess(s, s.mode.file) <= 0; }
    forall i | 0 <= i < |s.frames| && s.frames[i].delete ensures s.frames[i].file in s.files {
      assert Excess(s, s.frames[i].file) <= 0;
      assert s.frames[i] == Frame(s.frames[i].file, true) && s.frames[i] in multiset(s.frames);
    }
    forall i, j | 0 <= i < j < |s.frames| && s.frames[i].delete && s.frames[j].delete
      ensures s.frames[i].file != s.frames[j].file
    {
      assert Excess(s, s.frames[i].file) <= 0;
      if s.frames[i].file == s.frames[j].file { TwoOrders(s.frames, i, j); }
    }
  }

  lemma TwoOrders(frames: seq<Frame>, i: int, j: int)
    requires 0 <= i < j < |frames| && frames[i] == frames[j]
    ensures multiset(frames)[frames[i]] >= 2
  {
    assert frames == frames[..i] + [frames[i]] + frames[i + 1..j] + [frames[j]] + frames[j + 1..];
  }
}
