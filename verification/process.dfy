/** Outcomes of running an external program (`pdftoppm`, `tesseract`), as
    the pipeline observes them through `QProcess`. Starting, polling and
    killing the process are not modelled; each run is summarised by one
    value the caller inspects. */
module Process {
  import opened Wrappers

  /** Exit status (`NormalExit` or not), exit code and captured stderr. */
  datatype Exit = Exit(normal: bool, code: int, stderr: string)
  {
    /** The only exit the callers accept: a normal exit with code 0. */
    predicate Clean()
    {
      normal && code == 0
    }
  }

  /** One supervised run.
      - `FailedToStart`: `waitForStarted` gave up; `error` is `errorString()`.
      - `TimedOut`: still running when the polling budget ran out; `stopped`
        is how it ended after terminate/kill.
      - `Finished`: ended by itself after `polls` polling rounds. */
  datatype Run =
    | FailedToStart(error: string)
    | TimedOut(stopped: Exit)
    | Finished(polls: nat, exit: Exit)

  /** `QProcess::ProcessError`. */
  datatype ProcessError = NotStarted | Crashed | Timedout | WriteError | ReadError | UnknownError

  /** The error `QProcess` announces through `errorOccurred` during a run, if
      any. A failed start announces `FailedToStart`; a run that ends other
      than by a normal exit, by itself or after terminate/kill, announces
      `Crashed`. A `waitFor...` call that only runs out of time records
      `Timedout` without announcing it, and the callers neither write to the
      process nor lose its output, so no other kind arises. */
  function Notified(run: Run): (err: Option<ProcessError>)
    ensures err == Some(NotStarted) <==> run.FailedToStart?
    ensures err == Some(Crashed) <==> (run.TimedOut? && !run.stopped.normal) || (run.Finished? && !run.exit.normal)
    ensures err.None? || err == Some(NotStarted) || err == Some(Crashed)
  {
    match run
    case FailedToStart(_) => Some(NotStarted)
    case TimedOut(stopped) => if stopped.normal then None else Some(Crashed)
    case Finished(_, exit) => if exit.normal then None else Some(Crashed)
  }

  /** How many polling rounds the caller saw, with at most `limit` rounds
      before it gives up: a timeout uses the whole budget. */
  function Rounds(run: Run, limit: nat): (r: nat)
    ensures r <= limit
    ensures run.TimedOut? ==> r == limit
    ensures run.FailedToStart? ==> r == 0
  {
    match run
    case FailedToStart(_) => 0
    case TimedOut(_) => limit
    case Finished(polls, _) => if polls <= limit then polls else limit
  }
}

module Wrappers {
  datatype Option<+T> = None | Some(value: T)
}
