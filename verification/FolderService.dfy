/** The folder object whose fields the event loop changes (lib/model/folder.go), method by method
    proved to do what FolderLoop says. */
module FolderService {
  import opened Options
  import opened FolderLoop

  class Folder {
    const cfg: Config
    var life: Life
    var cancelled: bool
    var phase: Phase
    var token: bool
    var pullTimer: bool
    var failTimer: bool
    var initial: bool
    var scanned: bool
    var error: Option<Error>
    var pause: int
    ghost var watch: Watch

    ghost function Now(): State
      reads this
    {
      State(life, cancelled, phase, Signals(token, pullTimer, failTimer, initial), scanned, error, pause, watch)
    }

    constructor (cfg: Config)
      ensures this.cfg == cfg && Now() == Initial(cfg)
    {
      this.cfg := cfg;
      life, cancelled, phase := NotServing, false, Idle;
      token, pullTimer, failTimer, initial, scanned := false, false, false, false, false;
      error, pause, watch := None, cfg.basePause, Watch(false, false);
    }

    method SchedulePull()
      modifies `token
      ensures Now() == FolderLoop.SchedulePull(old(Now()))
    {
      token := true;
    }

    method SetError(err: Option<Error>)
      modifies `token, `error
      ensures Now() == FolderLoop.SetError(old(Now()), err)
    {
      if cancelled {
        return;
      }
      if (err.Some? && error.Some? && error.value.text == err.value.text) || (err.None? && error.None?) {
        return;
      }
      if err.None? {
        SchedulePull();
      }
      error := err;
    }

    /** The part of pull before the call of the puller: `calls` that it is called, otherwise pull
        returns `success` and `err`. */
    method Pull(start: PullStart) returns (calls: bool, success: bool, err: Option<Error>)
      modifies this
      ensures !calls ==> FinishRound(cfg, Now(), false, success, err) == BeginPull(cfg, old(Now()), start, false)
      ensures !calls ==> FinishRound(cfg, Now(), true, success, err) == BeginPull(cfg, old(Now()), start, true)
      ensures calls ==> forall retry :: Now().(phase := Pulling(retry)) == BeginPull(cfg, old(Now()), start, retry)
    {
      failTimer := false;
      if !scanned {
        return false, true, None;
      }
      match start {
        case CountFails(e) =>
          watch := watch.(failed := true);
          return false, false, Some(e);
        case NothingNeeded =>
          watch := Watch(false, false);
          pause := cfg.basePause;
          return false, true, None;
        case Unhealthy(e) =>
          watch := Watch(false, true);
          return false, false, Some(e);
        case LimiterCancelled(e) =>
          cancelled := true;
          pause := cfg.basePause;
          return false, true, Some(e);
        case Proceeds =>
          watch := watch.(unseen := false);
          SetError(None);
          return true, false, None;
      }
    }

    /** What Serve does with the outcome of a round. */
    method Finish(retry: bool, success: bool, err: Option<Error>)
      modifies this
      ensures Now() == FinishRound(cfg, old(Now()), retry, success, err)
    {
      if retry && (err.Some? || !success) && pause < 60 * cfg.basePause {
        pause := pause * 2;
      }
      if err.Some? {
        if err.value.fatal {
          life := Stopped;
          return;
        }
        SetError(err);
      }
    }

    method Receive(cause: PullCause)
      requires Ready(Now(), cause)
      modifies `token, `pullTimer, `failTimer, `initial
      ensures Now() == Consume(old(Now()), cause)
    {
      match cause {
        case Token => token := false;
        case PullTimer => pullTimer := false;
        case FailTimer => failTimer := false;
        case InitialScan => initial := false;
      }
    }

    method PullRound(start: PullStart, retry: bool)
      requires phase.Idle?
      modifies this
      ensures Now() == BeginPull(cfg, old(Now()), start, retry)
    {
      var calls, success, err := Pull(start);
      if calls {
        phase := Pulling(retry);
      } else {
        Finish(retry, success, err);
      }
    }

    /** A select case that pulls: token, pull timer, fail timer or the end of the initial scan. */
    method SelectPull(cause: PullCause, start: PullStart)
      requires Selects(Now()) && Ready(Now(), cause)
      modifies this
      ensures Now() == Step(cfg, old(Now()), Selected(cause, start))
    {
      Receive(cause);
      if cause.Token? && cfg.pullerDelay {
        pullTimer := true;
      } else {
        PullRound(start, cause.FailTimer?);
      }
    }

    /** The return of the puller, and with it of pull. */
    method PullerReturns(success: bool, err: Option<Error>)
      requires phase.Pulling?
      modifies this
      ensures Now() == Step(cfg, old(Now()), PullerReturned(success, err))
    {
      var retry := phase.retry;
      phase := Idle;
      if success && err.None? {
        watch := watch.(failed := false);
        pause := cfg.basePause;
        Finish(retry, true, None);
      } else {
        watch := watch.(failed := true);
        failTimer := true;
        Finish(retry, false, err);
      }
    }

    method Scan(first: bool, scan: ScanOutcome)
      requires Selects(Now())
      modifies this
      ensures Now() == Step(cfg, old(Now()), ScanRan(first, scan))
    {
      var err: Option<Error>;
      match scan {
        case ScanUnhealthy(e) =>
          err := Some(e);
        case Scanned(wakes, result) =>
          SetError(None);
          if wakes {
            SchedulePull();
          }
          err := result;
      }
      if first {
        scanned := true;
      }
      Finish(false, true, err);
    }
  }

  /** The end of a round of Serve: the back-off after a retry, and the report of the error. */
  ghost function FinishRound(cfg: Config, s: State, retry: bool, success: bool, err: Option<Error>): State {
    if err.Some? || !success then PullFails(cfg, s, retry, err) else s
  }
}
