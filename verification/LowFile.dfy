/** src/LowFile.cpp as a class. Its fields are one file of a state of the protocol,
    and each method is what the protocol's step does to that file. */
module LowFileObject {
  import opened FilePhases
  import opened FileProtocol

  const EBADF := 9
  const EALREADY := 114

  /** What an accepted call does beside queueing the file. */
  lemma BeginKeeps(s: State, f: nat, p: Phase, withCall: bool)
    requires f in s.files && s.files[f].Accepts() && p != Ready
    ensures var t := FileProtocol.Begin(s, f, p, withCall);
            && t.files == s.files[f := s.files[f].Accept(p, withCall, |s.ops|)] && |t.ops| == |s.ops| + 1
            && t.runRef == s.runRef + if withCall then 1 else 0
  {}

  /** The part of low_t that a file uses. */
  class Low {
    var runRef: int

    constructor (n: int)
      ensures runRef == n
    {
      runRef := n;
    }
  }

  /** How FinishPhase ends: the data thread is not done, there is no callback to call,
      one is called, or what went wrong is thrown. */
  datatype Finish = Waits | Quiet | Calls(callID: int) | Thrown(error: int)

  class LowFile {
    const low: Low
    var phase: Phase
    var dataDone: bool
    var error: int
    var closed: bool
    var callID: int
    var advertised: bool
    ghost var op: nat
    ghost var stage: Stage
    ghost var runner: int

    ghost function Record(): File
      reads this
    {
      File(phase, dataDone, error != 0, closed, callID != 0, advertised, op, stage, runner)
    }

    /** The object is file f of s. */
    ghost predicate Shows(s: State, f: nat)
      reads this, low
    {
      && f in s.files && s.files[f] == Record() && low.runRef == s.runRef
      && (phase == Ready ==> callID == 0) && (closed ==> phase == Ready)
    }

    /** `stash` is the id the callback was given, 0 if there is none. */
    constructor (low: Low, stash: int, ghost s: State)
      requires low.runRef == s.runRef
      modifies low
      ensures this.low == low && Shows(OpenStep(s, stash != 0, false), s.created) && callID == stash
    {
      this.low := low;
      phase, dataDone, error, closed, callID, advertised := Opening, false, 0, false, stash, false;
      op, stage, runner := |s.ops|, Idle, -1;
      new;
      if stash != 0 {
        low.runRef := low.runRef + 1;
      }
    }

    /** ~LowFile, as far as run_ref goes. */
    method Destroy(ghost s: State, ghost f: nat)
      requires Shows(s, f)
      modifies low
      ensures low.runRef == DeleteStep(s, f).runRef
    {
      if callID != 0 {
        low.runRef := low.runRef - 1;
      }
    }

    /** What Read, Write, FStat and Close begin with: the error a call is refused
        with, 0 if it is accepted. */
    method Begin(p: Phase, stash: int, ghost s: State, ghost f: nat) returns (refused: int)
      requires Shows(s, f) && p != Ready && p != Opening
      modifies this, low
      ensures Shows(ApiStep(s, f, p, stash != 0), f)
      ensures refused == if old(closed) then EBADF else if old(phase) != Ready then EALREADY else 0
      ensures refused == 0 <==> |ApiStep(s, f, p, stash != 0).ops| == |s.ops| + 1
      ensures callID == if refused == 0 then stash else old(callID)
    {
      hide SetData;
      if s.files[f].Accepts() { BeginKeeps(s, f, p, stash != 0); }
      if closed { return EBADF; }
      if phase != Ready { return EALREADY; }
      if p == Closing { advertised := false; }
      callID := stash;
      if callID != 0 { low.runRef := low.runRef + 1; }
      phase, dataDone, op := p, false, |s.ops|;
      return 0;
    }

    /** OnData in a busy phase, up to the post to the event loop; `errno` is what
        the system call reports. */
    method OnData(errno: int, ghost s: State, ghost w: int)
      requires RunsAt(s, w, Entered) && Shows(s, s.workers[w].file) && phase != Ready
      modifies this
      ensures Shows(RunStep(s, w, errno != 0), s.workers[w].file)
    {
      error := errno;
      dataDone := true;
      stage := Done;
    }

    /** FinishPhase, for OnLoop or for a client that waits and may be about to delete
        the file. */
    method FinishPhase(ghost s: State, ghost f: nat, ghost delete: bool, ghost loop: bool) returns (end: Finish)
      requires Shows(s, f)
      modifies this, low
      ensures var t := FinishIn(s, f, delete, loop);
              && Shows(t, f)
              && (end.Waits? ==> t.mode == if loop then InJs else Sleep(f, delete))
              && (end.Quiet? ==> t.mode == if delete then Drain(f, false) else InJs)
              && (end.Calls? <==> t.frames == s.frames + [Frame(f, delete)])
              && (end.Thrown? ==> t.mode == InJs && t.frames == s.frames && Raises(s.files[f]))
      ensures end.Calls? ==> end.callID == old(callID) != 0
      ensures end.Thrown? ==> end.error == error != 0
      ensures end.Waits? <==> old(phase) != Ready && !dataDone
    {
      if phase == Ready { return Quiet; }
      if !dataDone { return Waits; }
      var was := phase;
      phase := Ready;
      if was == Opening && error == 0 { advertised := true; }
      if (was == Opening && error != 0) || was == Closing { closed := true; }
      if callID != 0 {
        end := Calls(callID);
        callID := 0;
        low.runRef := low.runRef - 1;
      } else if error != 0 {
        end := Thrown(error);
      } else {
        end := Quiet;
      }
    }

    /** OnLoop, up to the callback: `delete` tells that it will return false, so that
        the loop deletes the file. */
    method OnLoop(ghost s: State, ghost f: nat) returns (delete: bool, end: Finish)
      requires Shows(s, f) && s.mode == Popped(f)
      modifies this, low
      ensures var t := FinishStep(s);
              && Shows(t, f)
              && (t.mode == Drain(f, false) <==> delete && end.Quiet?)
              && t.frames == s.frames + if end.Calls? then [Frame(f, delete)] else []
    {
      if closed { return true, Quiet; }
      delete := phase == Closing;
      end := FinishPhase(s, f, delete, true);
      delete := delete && !end.Waits?;
    }
  }
}
