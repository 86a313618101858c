/** The event loop of a folder (Serve, pull, setError, SchedulePull and what a scan does to them in
    lib/model/folder.go): a wake-up of the puller is never lost. */
module FolderLoop {
  import opened Options

  /** An error; messages are only ever compared, so a number stands for the text. */
  datatype Error = Error(text: nat, fatal: bool)

  datatype Config = Config(pullerDelay: bool, basePause: int)

  datatype Life = NotServing | Serving | Stopped

  /** `Pulling` is the time between the call of the puller and its return; `retry` that the fail timer
      started the pull. */
  datatype Phase = Idle | Pulling(retry: bool)

  /** What makes the loop pull: the one-element channel pullScheduled, the two timers, and that the
      loop still listens for the end of the initial scan. */
  datatype Signals = Signals(token: bool, pullTimer: bool, failTimer: bool, initial: bool)

  /** Only watched: an index change no pull has counted yet, and that the last pull failed. */
  datatype Watch = Watch(unseen: bool, failed: bool)

  const CLEAN := Watch(false, false)

  datatype State = State(
    life: Life, cancelled: bool, phase: Phase, signals: Signals, scanned: bool,
    error: Option<Error>, pause: int, watch: Watch)

  function Initial(cfg: Config): State {
    State(NotServing, false, Idle, Signals(false, false, false, false), false, None, cfg.basePause, Watch(false, false))
  }

  /** What a pull meets before it calls the puller. */
  datatype PullStart =
    | CountFails(e: Error) | NothingNeeded | Unhealthy(e: Error) | LimiterCancelled(e: Error) | Proceeds

  /** What a scan meets; `wakes` that it found changes or changed ignores. */
  datatype ScanOutcome = ScanUnhealthy(e: Error) | Scanned(wakes: bool, result: Option<Error>)

  datatype PullCause = Token | PullTimer | FailTimer | InitialScan

  datatype Event =
    | ServeStarts(reconcile: Option<Error>)
    | Cancelled
    | IndexChanged
    | PullRequested
    | Selected(cause: PullCause, start: PullStart)
    | PullerReturned(success: bool, err: Option<Error>)
    | ScanRan(first: bool, scan: ScanOutcome)
    | OtherRequest(result: Option<Error>)

  // ---------------------------------------------------------------- transitions

  function SchedulePull(s: State): State { s.(signals := s.signals.(token := true)) }

  predicate SameError(a: Option<Error>, b: Option<Error>) {
    (a.Some? && b.Some? && a.value.text == b.value.text) || (a.None? && b.None?)
  }

  function SetError(s: State, e: Option<Error>): State {
    if s.cancelled || SameError(s.error, e) then s
    else (if e.None? then SchedulePull(s) else s).(error := e)
  }

  /** The end of a round of the loop. */
  function Report(s: State, e: Option<Error>): State {
    if e.None? then s else if e.value.fatal then s.(life := Stopped) else SetError(s, e)
  }

  function BackedOff(cfg: Config, pause: int, retry: bool): int {
    if retry && pause < 60 * cfg.basePause then 2 * pause else pause
  }

  /** A pull that ends without success or with an error. */
  function PullFails(cfg: Config, s: State, retry: bool, err: Option<Error>): State {
    Report(s.(pause := BackedOff(cfg, s.pause, retry)), err)
  }

  /** pull up to the point where it returns early or calls the puller. */
  function BeginPull(cfg: Config, s: State, start: PullStart, retry: bool): State {
    var t := s.(signals := s.signals.(failTimer := false));
    if !t.scanned then t
    else match start
      case CountFails(e) => PullFails(cfg, t.(watch := t.watch.(failed := true)), retry, Some(e))
      case NothingNeeded => t.(pause := cfg.basePause, watch := Watch(false, false))
      case Unhealthy(e) => PullFails(cfg, t.(watch := Watch(false, true)), retry, Some(e))
      case LimiterCancelled(e) => PullFails(cfg, t.(pause := cfg.basePause, cancelled := true), retry, Some(e))
      case Proceeds => SetError(t.(watch := t.watch.(unseen := false)), None).(phase := Pulling(retry))
  }

  /** pull from the return of the puller on. */
  function EndPull(cfg: Config, s: State, retry: bool, success: bool, err: Option<Error>): State {
    var t := s.(phase := Idle);
    if success && err.None? then t.(pause := cfg.basePause, watch := t.watch.(failed := false))
    else PullFails(cfg, t.(signals := t.signals.(failTimer := true), watch := t.watch.(failed := true)), retry, err)
  }

  function AfterScan(s: State, scan: ScanOutcome): State {
    match scan
    case ScanUnhealthy(e) => s
    case Scanned(wakes, _) => if wakes then SchedulePull(SetError(s, None)) else SetError(s, None)
  }

  function ScanResult(scan: ScanOutcome): Option<Error> {
    match scan case ScanUnhealthy(e) => Some(e) case Scanned(_, r) => r
  }

  /** A scan; the first one closes initialScanFinished, whatever it met. */
  function RunScan(s: State, first: bool, scan: ScanOutcome): State {
    var t := AfterScan(s, scan);
    Report(if first then t.(scanned := true) else t, ScanResult(scan))
  }

  function StartServing(s: State, reconcile: Option<Error>): State {
    if reconcile.Some? then SetError(s, reconcile)
    else s.(life := Serving, signals := s.signals.(initial := true, pullTimer := false))
  }

  predicate Ready(s: State, cause: PullCause) {
    match cause
    case Token => s.signals.token
    case PullTimer => s.signals.pullTimer
    case FailTimer => s.signals.failTimer
    case InitialScan => s.signals.initial && s.scanned
  }

  function Consume(s: State, cause: PullCause): State {
    s.(signals := match cause
      case Token => s.signals.(token := false)
      case PullTimer => s.signals.(pullTimer := false)
      case FailTimer => s.signals.(failTimer := false)
      case InitialScan => s.signals.(initial := false))
  }

  /** One of the select cases that pull or, with a puller delay, arm the pull timer. */
  function Select(cfg: Config, s: State, cause: PullCause, start: PullStart): State {
    var t := Consume(s, cause);
    if cause.Token? && cfg.pullerDelay then t.(signals := t.signals.(pullTimer := true))
    else BeginPull(cfg, t, start, cause.FailTimer?)
  }

  predicate Selects(s: State) { s.life.Serving? && s.phase.Idle? }

  /** An event that cannot happen in a state leaves it as it is. */
  function Step(cfg: Config, s: State, ev: Event): State {
    match ev
    case ServeStarts(reconcile) => if s.life.NotServing? then StartServing(s, reconcile) else s
    case Cancelled => s.(cancelled := true)
    case IndexChanged => SchedulePull(s).(watch := s.watch.(unseen := true))
    case PullRequested => SchedulePull(s)
    case Selected(cause, start) => if Selects(s) && Ready(s, cause) then Select(cfg, s, cause, start) else s
    case PullerReturned(success, err) => if s.phase.Pulling? then EndPull(cfg, s, s.phase.retry, success, err) else s
    case ScanRan(first, scan) => if Selects(s) then RunScan(s, first, scan) else s
    case OtherRequest(result) => if Selects(s) then Report(s, result) else s
  }

  function Run(cfg: Config, events: seq<Event>): State {
    if events == [] then Initial(cfg) else Step(cfg, Run(cfg, events[..|events| - 1]), events[|events| - 1])
  }

  // ---------------------------------------------------------------- the pause

  function Pow2(k: nat): nat { if k == 0 then 1 else 2 * Pow2(k - 1) }

  lemma ReportKeepsPause(s: State, e: Option<Error>)
    ensures Report(s, e).pause == s.pause
  {
  }

  lemma RunScanPause(s: State, first: bool, scan: ScanOutcome)
    ensures RunScan(s, first, scan).pause == s.pause
  {
  }

  /** How an event ends a pull: a retry is one that the fail timer started. A pull cancelled while it
      waited for its turn counts as a success for the pause, and then as a failure. */
  datatype Ending = Succeeded | RetryFailed | Interrupted | NoEnding

  function EndingOf(cfg: Config, s: State, ev: Event): Ending {
    match ev
    case Selected(cause, start) =>
      if !Selects(s) || !Ready(s, cause) || (cause.Token? && cfg.pullerDelay) then NoEnding
      else if !s.scanned || start.Proceeds? then NoEnding
      else if start.NothingNeeded? then Succeeded
      else if start.LimiterCancelled? then (if cause.FailTimer? then Interrupted else Succeeded)
      else if cause.FailTimer? then RetryFailed else NoEnding
    case PullerReturned(success, err) =>
      if s.phase.Idle? then NoEnding
      else if success && err.None? then Succeeded
      else if s.phase.retry then RetryFailed else NoEnding
    case _ => NoEnding
  }

  function AfterEnding(ending: Ending, failed: nat): nat {
    match ending
    case Succeeded => 0
    case Interrupted => 1
    case RetryFailed => failed + 1
    case NoEnding => failed
  }

  /** The retries that failed since the last success. */
  function FailedRetries(cfg: Config, events: seq<Event>): nat {
    if events == [] then 0
    else
      var before := events[..|events| - 1];
      AfterEnding(EndingOf(cfg, Run(cfg, before), events[|events| - 1]), FailedRetries(cfg, before))
  }

  function Capped(n: nat): nat { if n < 6 then n else 6 }

  predicate PauseIs(cfg: Config, pause: int, n: nat) {
    if cfg.basePause > 0 then pause == cfg.basePause * Pow2(Capped(n)) else pause == cfg.basePause
  }

  lemma NoRetryNoPause(cfg: Config)
    ensures PauseIs(cfg, cfg.basePause, 0)
  {
    assert Pow2(0) == 1;
  }

  lemma PowersTo64()
    ensures Pow2(0) == 1 && Pow2(1) == 2 && Pow2(2) == 4 && Pow2(3) == 8 && Pow2(4) == 16 && Pow2(5) == 32
            && Pow2(6) == 64
  {
    assert Pow2(3) == 8;
    assert Pow2(5) == 32;
  }

  lemma BackOffCounts(cfg: Config, pause: int, n: nat)
    requires PauseIs(cfg, pause, n)
    ensures PauseIs(cfg, BackedOff(cfg, pause, true), n + 1) && BackedOff(cfg, pause, false) == pause
  {
    PowersTo64();
    var base := cfg.basePause;
    if base > 0 {
      if n == 0 { assert pause == base; }
      else if n == 1 { assert pause == base * 2; }
      else if n == 2 { assert pause == base * 4; }
      else if n == 3 { assert pause == base * 8; }
      else if n == 4 { assert pause == base * 16; }
      else if n == 5 { assert pause == base * 32; }
      else { assert pause == base * 64; }
    }
  }

  lemma PullFailsCounts(cfg: Config, s: State, retry: bool, err: Option<Error>, n: nat)
    requires PauseIs(cfg, s.pause, n)
    ensures PauseIs(cfg, PullFails(cfg, s, retry, err).pause, if retry then n + 1 else n)
  {
    BackOffCounts(cfg, s.pause, n);
    ReportKeepsPause(s.(pause := BackedOff(cfg, s.pause, retry)), err);
  }

  lemma SelectCounts(cfg: Config, s: State, cause: PullCause, start: PullStart, n: nat)
    requires PauseIs(cfg, s.pause, n) && Selects(s) && Ready(s, cause)
    ensures var r := Select(cfg, s, cause, start);
            PauseIs(cfg, r.pause, AfterEnding(EndingOf(cfg, s, Selected(cause, start)), n))
  {
    NoRetryNoPause(cfg);
    if !(cause.Token? && cfg.pullerDelay) && s.scanned {
      var u := Consume(s, cause);
      var t := u.(signals := u.signals.(failTimer := false));
      match start {
        case CountFails(e) => PullFailsCounts(cfg, t.(watch := t.watch.(failed := true)), cause.FailTimer?, Some(e), n);
        case Unhealthy(e) => PullFailsCounts(cfg, t.(watch := Watch(false, true)), cause.FailTimer?, Some(e), n);
        case LimiterCancelled(e) => PullFailsCounts(cfg, t.(pause := cfg.basePause, cancelled := true),
            cause.FailTimer?, Some(e), 0);
        case NothingNeeded =>
        case Proceeds =>
      }
    }
  }

  lemma StepCounts(cfg: Config, s: State, ev: Event, n: nat)
    requires PauseIs(cfg, s.pause, n)
    ensures var r := Step(cfg, s, ev);
            PauseIs(cfg, r.pause, AfterEnding(EndingOf(cfg, s, ev), n))
  {
    match ev {
      case ServeStarts(reconcile) =>
      case Cancelled =>
      case IndexChanged =>
      case PullRequested =>
      case Selected(cause, start) =>
        if Selects(s) && Ready(s, cause) { SelectCounts(cfg, s, cause, start, n); }
      case PullerReturned(success, err) =>
        NoRetryNoPause(cfg);
        if s.phase.Pulling? && !(success && err.None?) {
          var t := s.(phase := Idle);
          PullFailsCounts(cfg, t.(signals := t.signals.(failTimer := true), watch := t.watch.(failed := true)),
              s.phase.retry, err, n);
        }
      case ScanRan(first, scan) => RunScanPause(s, first, scan);
      case OtherRequest(result) => ReportKeepsPause(s, result);
    }
  }

  /** The pause is the base pause doubled for every retry that failed since the last success, but not
      more than six times. */
  lemma {:induction false} PauseCountsFailedRetries(cfg: Config, events: seq<Event>)
    ensures PauseIs(cfg, Run(cfg, events).pause, FailedRetries(cfg, events))
  {
    if events == [] {
      NoRetryNoPause(cfg);
    } else {
      var before := events[..|events| - 1];
      PauseCountsFailedRetries(cfg, before);
      StepCounts(cfg, Run(cfg, before), events[|events| - 1], FailedRetries(cfg, before));
    }
  }

  // ---------------------------------------------------------------- no pull is lost

  /** Something will make the loop pull again: a queued token, an armed timer, the pull after the
      initial scan, or a recorded error whose clearing queues a token. */
  predicate Armed(s: State) {
    s.signals.token || s.signals.pullTimer || s.signals.failTimer || s.signals.initial || s.error.Some?
  }

  predicate WillPull(s: State) { Armed(s) || s.phase.Pulling? }

  /** Invariant of a folder that runs. A change that comes during a pull has its own token, and until
      the first scan is over the loop waits for it. */
  predicate Awake(s: State) {
    && (s.watch.unseen || s.watch.failed ==> WillPull(s))
    && (s.watch.unseen && s.phase.Pulling? ==> s.signals.token)
    && (s.life.Serving? && !s.scanned ==> s.signals.initial)
    && (!s.life.Serving? ==> !s.signals.pullTimer && !s.signals.failTimer && !s.watch.failed && s.phase.Idle?)
    && (s.phase.Pulling? || s.watch.failed || s.signals.failTimer ==> s.scanned)
  }

  predicate Running(s: State) { !s.cancelled && !s.life.Stopped? }

  /** Stated of the parts an error report changes: the error, the token and the life. */
  lemma SetErrorEffect(s: State, e: Option<Error>)
    ensures var r := SetError(s, e);
            && r == s.(error := r.error, signals := r.signals)
            && r.signals == s.signals.(token := r.signals.token) && (s.signals.token ==> r.signals.token)
            && (!s.cancelled && e.Some? ==> r.error.Some?)
            && (s.error.Some? && r.error.None? ==> r.signals.token)
  {
  }

  lemma ReportKeepsAwake(s: State, e: Option<Error>)
    requires Awake(s) || (e.Some? && Awake(s.(error := e)))
    ensures Running(Report(s, e)) ==> Awake(Report(s, e))
  {
  }

  /** A pull may begin where nothing else is armed: what it does not finish it leaves armed. */
  lemma BeginPullKeepsAwake(cfg: Config, s: State, start: PullStart, retry: bool)
    requires Selects(s)
    requires !s.scanned ==> s.signals.initial && !s.watch.failed
    ensures var r := BeginPull(cfg, s, start, retry); Running(r) ==> Awake(r)
  {
  }

  lemma StoppedStays(cfg: Config, t: State, retry: bool, e: Error)
    ensures PullFails(cfg, t.(pause := cfg.basePause, cancelled := true), retry, Some(e)).cancelled
  {
  }

  lemma EndPullKeepsAwake(cfg: Config, s: State, success: bool, err: Option<Error>)
    requires Awake(s) && s.phase.Pulling?
    ensures var r := EndPull(cfg, s, s.phase.retry, success, err); Running(r) ==> Awake(r)
  {
  }

  lemma AfterScanKeepsAwake(s: State, scan: ScanOutcome)
    requires Awake(s)
    ensures Awake(AfterScan(s, scan))
  {
  }

  lemma RunScanKeepsAwake(s: State, first: bool, scan: ScanOutcome)
    requires Awake(s) && s.life.Serving?
    ensures var r := RunScan(s, first, scan); Running(r) ==> Awake(r)
  {
    AfterScanKeepsAwake(s, scan);
    var t := AfterScan(s, scan);
    ReportKeepsAwake(if first then t.(scanned := true) else t, ScanResult(scan));
  }

  lemma SelectKeepsAwake(cfg: Config, s: State, cause: PullCause, start: PullStart)
    requires Awake(s) && Selects(s) && Ready(s, cause)
    ensures var r := Select(cfg, s, cause, start); Running(r) ==> Awake(r)
  {
    if !(cause.Token? && cfg.pullerDelay) {
      BeginPullKeepsAwake(cfg, Consume(s, cause), start, cause.FailTimer?);
    }
  }

  lemma StepKeepsAwake(cfg: Config, s: State, ev: Event)
    requires Awake(s)
    ensures var r := Step(cfg, s, ev); Running(r) ==> Awake(r)
  {
    match ev {
      case ServeStarts(reconcile) => SetErrorEffect(s, reconcile);
      case Cancelled =>
      case IndexChanged =>
      case PullRequested =>
      case Selected(cause, start) =>
        if Selects(s) && Ready(s, cause) { SelectKeepsAwake(cfg, s, cause, start); }
      case PullerReturned(success, err) =>
        if s.phase.Pulling? { EndPullKeepsAwake(cfg, s, success, err); }
      case ScanRan(first, scan) =>
        if Selects(s) { RunScanKeepsAwake(s, first, scan); }
      case OtherRequest(result) => ReportKeepsAwake(s, result);
    }
  }

  /** A cancelled folder or one that met a fatal error never runs again. */
  lemma StepStays(cfg: Config, s: State, ev: Event)
    ensures !Running(s) ==> !Running(Step(cfg, s, ev))
  {
  }

  lemma {:induction false} Reachable(cfg: Config, events: seq<Event>)
    ensures Running(Run(cfg, events)) ==> Awake(Run(cfg, events))
  {
    if events != [] {
      var before, e := events[..|events| - 1], events[|events| - 1];
      var s := Run(cfg, before);
      Reachable(cfg, before);
      if Running(s) { StepKeepsAwake(cfg, s, e); } else { StepStays(cfg, s, e); }
    }
  }

  /** In every reachable state of a running folder something is armed to pull again for an index change
      no pull has counted, also for one that comes while a pull is under way; and for a failed pull,
      unless it is being tried again. */
  lemma NoPullIsLost(cfg: Config, events: seq<Event>)
    ensures var s := Run(cfg, events);
            Running(s) ==> (s.watch.unseen ==> Armed(s)) && (s.watch.failed ==> Armed(s) || s.phase.Pulling?)
  {
    Reachable(cfg, events);
  }

  lemma ReportClears(s: State, e: Option<Error>)
    ensures s.error.Some? ==> Report(s, e).error.Some?
    ensures s.signals.token ==> Report(s, e).signals.token
  {
  }

  lemma BeginPullClears(cfg: Config, s: State, start: PullStart, retry: bool)
    requires s.error.Some?
    ensures var r := BeginPull(cfg, s, start, retry); r.error.None? ==> r.signals.token
  {
  }

  lemma EndPullClears(cfg: Config, s: State, retry: bool, success: bool, err: Option<Error>)
    requires s.error.Some?
    ensures EndPull(cfg, s, retry, success, err).error.Some?
  {
  }

  lemma RunScanClears(s: State, first: bool, scan: ScanOutcome)
    requires s.error.Some?
    ensures var r := RunScan(s, first, scan); r.error.None? ==> r.signals.token
  {
  }

  /** Whatever clears a folder error leaves a token behind. */
  lemma ClearingErrorQueuesPull(cfg: Config, s: State, ev: Event)
    requires s.error.Some?
    ensures var r := Step(cfg, s, ev); r.error.None? ==> r.signals.token
  {
    match ev {
      case ServeStarts(reconcile) => SetErrorEffect(s, reconcile);
      case Cancelled =>
      case IndexChanged =>
      case PullRequested =>
      case Selected(cause, start) => BeginPullClears(cfg, Consume(s, cause), start, cause.FailTimer?);
      case PullerReturned(success, err) =>
        if s.phase.Pulling? { EndPullClears(cfg, s, s.phase.retry, success, err); }
      case ScanRan(first, scan) => RunScanClears(s, first, scan);
      case OtherRequest(result) => ReportClears(s, result);
    }
  }

  // ---------------------------------------------------------------- what each event does

  /** The error a folder shows is this one, as far as one can see. */
  predicate Shows(s: State, e: Error) { s.error.Some? && s.error.value.text == e.text }

  /** Recording and clearing errors: nothing once the context is cancelled; else the error shown is the
      one given, an equal one is left as it is, and a token is queued exactly when an error is cleared. */
  lemma SetErrorShows(s: State, e: Option<Error>)
    ensures var r := SetError(s, e);
            && (s.cancelled ==> r == s)
            && (!s.cancelled && e.Some? ==> Shows(r, e.value) && (Shows(s, e.value) ==> r == s))
            && (!s.cancelled && e.None? ==> r.error.None?)
            && (r.signals.token <==> s.signals.token || (!s.cancelled && e.None? && s.error.Some?))
            && r == s.(error := r.error, signals := s.signals.(token := r.signals.token))
  {
  }

  /** Between two selects: which cases the loop takes, and when it gets to call the puller. Then the folder
      error is cleared, and if there was one a token is queued, so that the pull happens once more. */
  lemma PullerCalledIff(cfg: Config, s: State, cause: PullCause, start: PullStart)
    requires s.phase.Idle?
    ensures var r := Step(cfg, s, Selected(cause, start));
            var ready := (cause.Token? && s.signals.token) || (cause.PullTimer? && s.signals.pullTimer)
                      || (cause.FailTimer? && s.signals.failTimer)
                      || (cause.InitialScan? && s.signals.initial && s.scanned);
            && (r.phase.Pulling? <==>
                  s.life.Serving? && ready && !(cause.Token? && cfg.pullerDelay) && s.scanned && start.Proceeds?)
            && (r.phase.Pulling? ==>
                  && r.phase.retry == cause.FailTimer? && !r.signals.failTimer
                  && (!s.cancelled ==> r.error.None? && (s.error.Some? ==> r.signals.token)))
            && (s.life.Serving? && s.signals.token && cause.Token? && cfg.pullerDelay ==>
                  r == s.(signals := s.signals.(token := false, pullTimer := true)))
  {
  }

  /** A pull that returns before the puller: an error is shown, or nothing was needed; the retry timer is
      stopped. Before the first scan nothing happens at all. */
  lemma EarlyReturnShows(cfg: Config, s: State, start: PullStart, retry: bool)
    requires !s.cancelled && s.phase.Idle?
    ensures var r := BeginPull(cfg, s, start, retry);
            && !r.signals.failTimer
            && (!s.scanned ==> r == s.(signals := s.signals.(failTimer := false)))
            && (s.scanned && start.NothingNeeded? ==>
                  r.error == s.error && r.pause == cfg.basePause && r.watch == CLEAN)
            && (s.scanned && (start.CountFails? || start.Unhealthy?) ==>
                  r.watch.failed && if start.e.fatal then r.life.Stopped? else Shows(r, start.e) && r.life == s.life)
            && (s.scanned && start.LimiterCancelled? ==> r.cancelled)
  {
  }

  /** The end of a pull: success changes nothing but the pause, anything else arms the retry and shows the
      error. */
  lemma PullerReturnShows(cfg: Config, s: State, success: bool, err: Option<Error>)
    requires !s.cancelled && s.phase.Pulling?
    ensures var r := Step(cfg, s, PullerReturned(success, err));
            && r.phase.Idle? && r.signals == s.signals.(failTimer := r.signals.failTimer)
            && (success && err.None? ==>
                  r.pause == cfg.basePause && r.signals == s.signals && r.error == s.error && !r.watch.failed)
            && (!success || err.Some? ==> r.signals.failTimer && r.watch.failed)
            && (err.Some? ==> if err.value.fatal then r.life.Stopped? else Shows(r, err.value) && r.life == s.life)
            && (err.None? ==> r.error == s.error && r.life == s.life)
  {
  }

  /** A scan: what it found wakes the puller, also if it cleared an error; the first one is over even if it
      failed; its error is shown. */
  lemma ScanShows(cfg: Config, s: State, first: bool, scan: ScanOutcome)
    requires !s.cancelled && s.life.Serving? && s.phase.Idle?
    ensures var r := Step(cfg, s, ScanRan(first, scan));
            && r.scanned == (s.scanned || first)
            && (scan.ScanUnhealthy? ==>
                  && r.signals == s.signals
                  && if scan.e.fatal then r.life.Stopped? else Shows(r, scan.e) && r.life == s.life)
            && (scan.Scanned? ==>
                  && r.signals == s.signals.(token := s.signals.token || scan.wakes || s.error.Some?)
                  && if scan.result.None? then r.error.None? && r.life == s.life
                     else if scan.result.value.fatal then r.life.Stopped?
                     else Shows(r, scan.result.value) && r.life == s.life)
  {
  }

  /** Starting to serve, and requests that are neither pull nor scan. */
  lemma OthersShow(cfg: Config, s: State, result: Option<Error>)
    requires !s.cancelled
    ensures s.life.NotServing? ==>
              var r := Step(cfg, s, ServeStarts(result));
              if result.None? then r.life.Serving? && r.signals == s.signals.(initial := true, pullTimer := false)
              else r.life.NotServing? && Shows(r, result.value) && r.signals == s.signals
    ensures s.life.Serving? && s.phase.Idle? ==>
              var r := Step(cfg, s, OtherRequest(result));
              if result.None? then r == s
              else if result.value.fatal then r == s.(life := Stopped)
              else Shows(r, result.value) && r == s.(error := r.error)
  {
  }

  // ---------------------------------------------------------------- every wake-up is served

  /** A select case gets its turn: the pull finds nothing needed, or the puller runs and succeeds. */
  datatype Turn = Turn(cause: PullCause, needed: bool)

  function TakeTurn(cfg: Config, s: State, turn: Turn): State {
    if turn.needed then Step(cfg, Step(cfg, s, Selected(turn.cause, Proceeds)), PullerReturned(true, None))
    else Step(cfg, s, Selected(turn.cause, NothingNeeded))
  }

  function TakeTurns(cfg: Config, s: State, turns: seq<Turn>): State
    decreases |turns|
  {
    if turns == [] then s else TakeTurns(cfg, TakeTurn(cfg, s, turns[0]), turns[1..])
  }

  /** The turns that serve a cause are among them: with a puller delay a token first arms the timer. */
  ghost predicate Reaches(cfg: Config, turns: seq<Turn>, cause: PullCause) {
    if cause.Token? && cfg.pullerDelay then
      exists j, k :: 0 <= j < k < |turns| && turns[j].cause.Token? && turns[k].cause.PullTimer?
    else
      exists k :: 0 <= k < |turns| && turns[k].cause == cause
  }

  ghost predicate EveryTurn(cfg: Config, turns: seq<Turn>) { forall cause :: Reaches(cfg, turns, cause) }

  /** The folder serves, is between pulls, and has done its first scan. */
  predicate BetweenPulls(s: State) { Running(s) && s.life.Serving? && s.phase.Idle? && s.scanned }

  /** ... and it is free of errors. */
  predicate Settled(s: State) { BetweenPulls(s) && s.error.None? }

  /** The turn leads to a pull, rather than to a delay or to nothing. */
  predicate Pulls(cfg: Config, s: State, turn: Turn) {
    Ready(s, turn.cause) && !(turn.cause.Token? && cfg.pullerDelay)
  }

  /** A successful pull satisfies whatever was waiting, and clears the error if it gets as far as the
      puller; no pull keeps the rest waiting. */
  lemma TurnOf(cfg: Config, s: State, turn: Turn)
    requires BetweenPulls(s)
    ensures var r := TakeTurn(cfg, s, turn);
            && BetweenPulls(r)
            && (s.watch == CLEAN ==> r.watch == CLEAN)
            && (!Ready(s, turn.cause) ==> r == s)
            && (Ready(s, turn.cause) && !Pulls(cfg, s, turn) ==>
                  r == s.(signals := s.signals.(token := false, pullTimer := true)))
            && (Pulls(cfg, s, turn) ==> r.watch == CLEAN)
            && r.error == (if Pulls(cfg, s, turn) && turn.needed then None else s.error)
            && (Pulls(cfg, s, turn) && turn.needed && s.error.Some? ==> r.signals.token)
  {
  }

  lemma ReachesLater(cfg: Config, turns: seq<Turn>, cause: PullCause)
    requires turns != [] && Reaches(cfg, turns, cause)
    ensures turns[0].cause != cause ==> Reaches(cfg, turns[1..], cause)
    ensures turns[0].cause == cause && cause.Token? && cfg.pullerDelay ==> Reaches(cfg, turns[1..], PullTimer)
  {
    if cause.Token? && cfg.pullerDelay {
      var j, k :| 0 <= j < k < |turns| && turns[j].cause.Token? && turns[k].cause.PullTimer?;
      assert turns[1..][k - 1] == turns[k];
      if j > 0 { assert turns[1..][j - 1] == turns[j]; }
    } else {
      var k :| 0 <= k < |turns| && turns[k].cause == cause;
      if k > 0 { assert turns[1..][k - 1] == turns[k]; }
    }
  }

  /** Whatever is armed is served when its turn comes, in whatever order and how often the others get
      theirs. */
  lemma {:induction false} TurnsServe(cfg: Config, s: State, turns: seq<Turn>, cause: PullCause)
    requires BetweenPulls(s) && (s.watch == CLEAN || (Ready(s, cause) && Reaches(cfg, turns, cause)))
    ensures TakeTurns(cfg, s, turns).watch == CLEAN
    decreases |turns|
  {
    if turns != [] {
      var r := TakeTurn(cfg, s, turns[0]);
      TurnOf(cfg, s, turns[0]);
      if r.watch == CLEAN {
        TurnsServe(cfg, r, turns[1..], cause);
      } else {
        ReachesLater(cfg, turns, cause);
        TurnsServe(cfg, r, turns[1..], if turns[0].cause == cause then PullTimer else cause);
      }
    }
  }

  /** ... and the error is gone, if each of these pulls gets as far as the puller. */
  lemma {:induction false} TurnsClearError(cfg: Config, s: State, turns: seq<Turn>, cause: PullCause)
    requires BetweenPulls(s) && (s.error.None? || (Ready(s, cause) && Reaches(cfg, turns, cause)))
    requires forall k :: 0 <= k < |turns| ==> turns[k].needed
    ensures TakeTurns(cfg, s, turns).error.None?
    decreases |turns|
  {
    if turns != [] {
      var r := TakeTurn(cfg, s, turns[0]);
      TurnOf(cfg, s, turns[0]);
      if r.error.None? {
        TurnsClearError(cfg, r, turns[1..], cause);
      } else {
        ReachesLater(cfg, turns, cause);
        TurnsClearError(cfg, r, turns[1..], if turns[0].cause == cause then PullTimer else cause);
      }
    }
  }

  /** In every reachable settled state: once every way into a pull had its turn and its pull succeeded, no
      change is left unseen and no failed pull unretried. What NoPullIsLost keeps armed is enough. */
  lemma SettledWakeUpIsServed(cfg: Config, events: seq<Event>, turns: seq<Turn>)
    requires Settled(Run(cfg, events)) && EveryTurn(cfg, turns)
    ensures TakeTurns(cfg, Run(cfg, events), turns).watch == CLEAN
  {
    var s := Run(cfg, events);
    Reachable(cfg, events);
    var cause := if s.signals.token then Token else if s.signals.pullTimer then PullTimer
                 else if s.signals.failTimer then FailTimer else InitialScan;
    assert Reaches(cfg, turns, cause);
    TurnsServe(cfg, s, turns, cause);
  }

  /** After some events the puller returns, the folder is started if it was not, and a scan meets no
      error. */
  function Settling(events: seq<Event>, wakes: bool): seq<Event> {
    events + [PullerReturned(true, None)] + [ServeStarts(None)] + [ScanRan(true, Scanned(wakes, None))]
  }

  lemma RunOneMore(cfg: Config, events: seq<Event>, e: Event)
    ensures Run(cfg, events + [e]) == Step(cfg, Run(cfg, events), e)
  {
    assert (events + [e])[..|events + [e]| - 1] == events;
  }

  lemma PullerDone(cfg: Config, events: seq<Event>)
    requires Running(Run(cfg, events))
    ensures var s := Run(cfg, events + [PullerReturned(true, None)]); Running(s) && s.phase.Idle?
  {
    RunOneMore(cfg, events, PullerReturned(true, None));
  }

  lemma Started(cfg: Config, events: seq<Event>)
    requires var s := Run(cfg, events); Running(s) && s.phase.Idle?
    ensures var s := Run(cfg, events + [ServeStarts(None)]); Running(s) && s.phase.Idle? && s.life.Serving?
  {
    RunOneMore(cfg, events, ServeStarts(None));
  }

  lemma SettlingSettles(cfg: Config, events: seq<Event>, wakes: bool)
    requires Running(Run(cfg, events))
    ensures Settled(Run(cfg, Settling(events, wakes)))
  {
    PullerDone(cfg, events);
    Started(cfg, events + [PullerReturned(true, None)]);
    RunOneMore(cfg, events + [PullerReturned(true, None)] + [ServeStarts(None)], ScanRan(true, Scanned(wakes, None)));
  }

  /** So from every reachable state of a running folder, once it has settled. */
  lemma EveryWakeUpIsServed(cfg: Config, events: seq<Event>, wakes: bool, turns: seq<Turn>)
    requires Running(Run(cfg, events)) && EveryTurn(cfg, turns)
    ensures TakeTurns(cfg, Run(cfg, Settling(events, wakes)), turns).watch == CLEAN
  {
    SettlingSettles(cfg, events, wakes);
    SettledWakeUpIsServed(cfg, Settling(events, wakes), turns);
  }
}
