/** src/LowFile.cpp: the phase machine of one open file, as the record of the
    fields its methods change. */
module FilePhases {

  datatype Phase = Opening | Ready | Reading | Writing | Stating | Closing

  /** How far the data thread that runs OnData has come: `Entered` before the
      system call, `Done` after `mDataDone = true`, `Posted` after the file was
      put in the loop queue. `Idle` is `mInDataThread == false`. */
  datatype Stage = Idle | Entered | Done | Posted

  /** mPhase, mDataDone, mError, mClose, mCallID (present or not), whether the
      file descriptor is advertised in low->fds; `op` names the operation that
      was accepted last, `runner` the data thread that runs OnData. */
  datatype File = File(phase: Phase, dataDone: bool, failed: bool, closed: bool, call: bool, advertised: bool,
                       op: nat, stage: Stage, runner: int)
  {
    predicate Busy() { phase != Ready }

    /** Read, Write, FStat and Close go ahead exactly in this case. */
    predicate Accepts() { !closed && phase == Ready }

    function Accept(p: Phase, withCall: bool, token: nat): File
      requires Accepts() && p != Ready
    {
      this.(phase := p, dataDone := false, call := withCall, op := token,
            advertised := if p == Closing then false else advertised)
    }

    /** OnData: the system call is made and its outcome kept. */
    function WithData(error: bool): File { this.(dataDone := true, failed := error, stage := Done) }

    /** FinishPhase, on a busy file whose data is done. */
    function Finished(): File
      requires Busy() && dataDone
    {
      this.(phase := Ready, call := false,
            advertised := if phase == Opening && !failed then true else advertised,
            closed := if (phase == Opening && failed) || phase == Closing then true else closed)
    }
  }

  function Opened(withCall: bool, token: nat): File {
    File(Opening, false, false, false, withCall, false, token, Idle, -1)
  }

  function PriorityOf(p: Phase): int { if p == Writing then 1 else 0 }
}
