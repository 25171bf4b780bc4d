/** What `run_ltspice_simulation` makes of a finished LTspice run: a failed
    exit is an error carrying the process's stderr and log, a missing `.raw`
    file is an error, and otherwise the result is whatever decoding the
    `.raw` file gives. The process itself, the files and the temporary
    directory are inputs here. */
module Runner {
  import opened Wrappers
  import opened Text
  import opened Protocol
  import opened RawFile

  const NO_RAW_FILE: string := "No .raw file generated" + " - simulation may have failed"

  /** A finished run as the agent sees it: whether LTspice exited
      successfully, its stderr (decoded lossily), the log file's text if it
      could be read, and the `.raw` file's bytes with their decoded text if
      the file exists. */
  datatype Run = Run(
    exitSuccess: bool,
    stderr: string,
    log: Option<string>,
    rawFile: Option<(seq<bv8>, string)>)

  /** The log text, empty when the log could not be read. */
  function LogText(log: Option<string>): string {
    match log
    case Some(t) => t
    case None => ""
  }

  function FailureMessage(stderr: string, log: string): (msg: string)
    ensures StartsWith(msg, "LTspice failed: ")
  {
    "LTspice failed: " + stderr + "\n" + log
  }

  /** The end of `run_ltspice_simulation`, given the exit status, the
      messages and, when the `.raw` file exists, what decoding it gives. */
  function Conclude(exitSuccess: bool, stderr: string, log: string, decoded: Option<Result<SimulationResults, string>>)
    : Result<SimulationResults, string>
  {
    if !exitSuccess then Err(FailureMessage(stderr, log))
    else
      match decoded
      case None => Err(NO_RAW_FILE)
      case Some(r) => r
  }

  function Outcome(run: Run): Result<SimulationResults, string> {
    var decoded := match run.rawFile
      case None => None
      case Some((data, text)) => Some(Decode(data, text));
    Conclude(run.exitSuccess, run.stderr, LogText(run.log), decoded)
  }

  /** A failed exit is an error naming the failure, whether or not a `.raw`
      file was left behind; its message carries stderr and the log. */
  lemma FailedExitIsError(run: Run)
    requires !run.exitSuccess
    ensures var r := Outcome(run);
            && r.Err?
            && StartsWith(r.error, "LTspice failed: ")
            && r.error == "LTspice failed: " + run.stderr + "\n" + LogText(run.log)
  {
  }

  /** After a successful exit a missing `.raw` file is an error. */
  lemma MissingRawIsError(run: Run)
    requires run.exitSuccess && run.rawFile.None?
    ensures Outcome(run) == Err(NO_RAW_FILE)
  {
  }

  /** A run gives results exactly when LTspice exited successfully, the
      `.raw` file exists and it decodes; the results are then the decoded
      ones. */
  lemma OutcomeOkIff(run: Run)
    ensures Outcome(run).Ok?
            <==> run.exitSuccess && run.rawFile.Some? && Decode(run.rawFile.value.0, run.rawFile.value.1).Ok?
    ensures Outcome(run).Ok? ==> Outcome(run) == Decode(run.rawFile.value.0, run.rawFile.value.1)
  {
  }

  /** The message tells the failures apart: it starts with `LTspice failed: `
      exactly when LTspice's exit was a failure, and it is the missing-file
      message exactly when the exit succeeded without a `.raw` file. */
  lemma FailuresAreDistinct(run: Run)
    ensures Outcome(run).Err? && StartsWith(Outcome(run).error, "LTspice failed: ") <==> !run.exitSuccess
    ensures Outcome(run) == Err(NO_RAW_FILE) <==> run.exitSuccess && run.rawFile.None?
  {
    var decoded := match run.rawFile
      case None => None
      case Some((data, text)) => Some(Decode(data, text));
    if run.rawFile.Some? {
      DecodeErrors(run.rawFile.value.0, run.rawFile.value.1);
    }
    ConcludedFailures(run.exitSuccess, run.stderr, LogText(run.log), decoded);
  }

  lemma ConcludedFailures(exitSuccess: bool, stderr: string, log: string, decoded: Option<Result<SimulationResults, string>>)
    requires decoded.Some? && decoded.value.Err? ==>
               var e := decoded.value.error;
               e == HEADER_ERROR || e == MARKER_ERROR || StartsWith(e, "Binary data too short: expected ")
    ensures var r := Conclude(exitSuccess, stderr, log, decoded);
            && (r.Err? && StartsWith(r.error, "LTspice failed: ") <==> !exitSuccess)
            && (r == Err(NO_RAW_FILE) <==> exitSuccess && decoded.None?)
  {
    assert NO_RAW_FILE[0] == 'N';
    if !exitSuccess {
      assert FailureMessage(stderr, log)[0] == 'L';
    } else if decoded.Some? && decoded.value.Err? {
      var e := decoded.value.error;
      assert e[0] != 'L' && e[0] != 'N';
    }
  }
}
