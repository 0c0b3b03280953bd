/**
 One scheduled task's row through the task runner: every exit path of a run and what it writes to
 `nextRunAt` and `enabled`, together with the other writers of that row (suspension by another task of
 the account, the worker's timeout, start-up recovery).

 The database, the account, the Telegram client and both clock readings of a run are its environment.
 */
module Schedule {
  import opened Common

  /** The task row. Times are seconds; a missing or zero bound is no bound. */
  datatype Task = Task(
    enabled: bool, nextRunAt: Option<int>, startAt: int, endAt: int, intervalMin: int,
    dayStart: Option<int>, dayEnd: Option<int>, failureCount: nat, hasAccount: bool)

  /** The account as the run sees it, after any attempt to recover it. */
  datatype Account =
    | Missing
    | Account(reauthRequired: bool, online: bool, observing: bool, hasBudget: bool, observedUntil: int)

  /** The account's proxy observation at the second look, under the lock. */
  datatype Recheck = Recheck(observing: bool, hasBudget: bool, claimed: bool, observedUntil: int)

  datatype SendResult =
    | Sent                       // at least one target got its message
    | NoneSent
    | FloodWait(ban: bool, floodUntil: Option<int>)
    | PeerFlood(until: int)
    | Crashed

  /** Whether an exception ends the run that nothing in it handles: from the database, Redis or the account's
      client, before the missing next run is repaired and committed, or after that. */
  datatype Escape = NoEscape | EarlyEscape | LateEscape

  /** `now` is read when the run starts, `later` when a failure is recorded. */
  datatype Env = Env(
    now: int, hour: int, later: int, licensed: bool, account: Account,
    configuredTargets: nat, sendableTargets: nat, hasClient: bool, recheck: Recheck, result: SendResult,
    maxFailures: nat, escape: Escape)

  datatype Mode = Mode(advanceSchedule: bool, respectConstraints: bool)

  const SCHEDULED := Mode(true, true)
  const MANUAL := Mode(false, false)

  datatype Status = Raised | Skipped | FailedRun | Succeeded | Escaped

  // ---------------------------------------------------------------- the writes

  function DeferUntilObservationEnd(task: Task, now: int, until: int): Task {
    task.(nextRunAt := Some(Max(now + 60, until)))
  }

  function DeferUnavailable(task: Task, now: int): Task {
    task.(nextRunAt := Some(now + Max(1, task.intervalMin) * 60))
  }

  function FirstRunAt(task: Task, now: int): int {
    if task.startAt > 0 then Max(now, task.startAt) else now
  }

  function HandleSuccess(task: Task, mode: Mode, now: int): Task {
    task.(failureCount := 0, nextRunAt := if mode.advanceSchedule then Some(now + task.intervalMin * 60) else task.nextRunAt)
  }

  function HandleFailure(task: Task, advance: bool, disablePolicy: bool, later: int, maxFailures: nat): Task {
    task.(failureCount := task.failureCount + 1,
          nextRunAt := if advance then Some(later + Max(30, task.intervalMin * 60)) else task.nextRunAt,
          enabled := task.enabled && !(disablePolicy && task.failureCount + 1 >= maxFailures))
  }

  function Suspend(task: Task, until: int): Task {
    if task.hasAccount && task.enabled
    then task.(nextRunAt := Some(Max(if task.nextRunAt.Some? then task.nextRunAt.value else 0, until)))
    else task
  }

  // ---------------------------------------------------------------- a run, path by path

  predicate Unavailable(account: Account) {
    account.Account? && (account.reauthRequired || !account.online)
  }

  /** The first look at the proxy observation puts the run off - before it is known to be due. */
  predicate DefersForObservation(task: Task, env: Env) {
    !env.escape.EarlyEscape? && task.enabled && task.hasAccount && env.licensed
    && env.account.Account? && !Unavailable(env.account)
    && env.account.observing && !env.account.hasBudget
  }

  predicate OutsideHours(task: Task, hour: int) {
    task.dayStart.Some? && task.dayEnd.Some?
    && if task.dayStart.value <= task.dayEnd.value
       then !(task.dayStart.value <= hour < task.dayEnd.value)
       else !(hour >= task.dayStart.value || hour < task.dayEnd.value)
  }

  function NoTargets(task: Task, mode: Mode, env: Env): (Task, Status) {
    if env.configuredTargets > 0 then
      if mode.advanceSchedule then (task.(nextRunAt := Some(env.now + task.intervalMin * 60)), Skipped)
      else (HandleFailure(task, false, false, env.later, env.maxFailures), FailedRun)
    else
      (HandleFailure(task, mode.advanceSchedule, mode.advanceSchedule, env.later, env.maxFailures), FailedRun)
  }

  function Send(task: Task, mode: Mode, env: Env): (Task, Status) {
    if env.result.Sent? then (HandleSuccess(task, mode, env.now), Succeeded)
    else
      var failed := HandleFailure(task, mode.advanceSchedule, mode.advanceSchedule, env.later, env.maxFailures);
      match env.result
      case FloodWait(true, floodUntil) =>
        var day := env.now + 24 * 3600;
        (Suspend(failed, if floodUntil.Some? then Max(day, floodUntil.value) else day), FailedRun)
      case PeerFlood(until) => (Suspend(failed, until), FailedRun)
      case _ => (failed, FailedRun)
  }

  function Constrained(task: Task, mode: Mode, env: Env): (Task, Status) {
    if mode.respectConstraints && task.startAt != 0 && env.now < task.startAt then
      (if mode.advanceSchedule
       then task.(nextRunAt := Some(Max(if task.nextRunAt.Some? then task.nextRunAt.value else 0, task.startAt)))
       else task, Skipped)
    else if mode.respectConstraints && task.endAt != 0 && env.now > task.endAt then
      (if mode.advanceSchedule then task.(enabled := false) else task, Skipped)
    else if mode.respectConstraints && OutsideHours(task, env.hour) then
      (if mode.advanceSchedule then task.(nextRunAt := Some(env.now + task.intervalMin * 60)) else task, Skipped)
    else if task.hasAccount && env.recheck.observing && !(env.recheck.hasBudget && env.recheck.claimed) then
      (if mode.advanceSchedule then DeferUntilObservationEnd(task, env.now, env.recheck.observedUntil) else task, Skipped)
    else Send(task, mode, env)
  }

  function Resolved(task: Task, mode: Mode, env: Env): (Task, Status) {
    if env.escape.LateEscape? then (task, Escaped)
    else if env.sendableTargets == 0 then NoTargets(task, mode, env)
    else if !env.hasClient then
      (HandleFailure(task, mode.advanceSchedule, mode.advanceSchedule, env.later, env.maxFailures), FailedRun)
    else Constrained(task, mode, env)
  }

  function Due(task: Task, mode: Mode, env: Env): (Task, Status) {
    var repaired := if mode.advanceSchedule && task.nextRunAt.None? then task.(nextRunAt := Some(FirstRunAt(task, env.now))) else task;
    if mode.advanceSchedule && repaired.nextRunAt.value != 0 && repaired.nextRunAt.value > env.now then (repaired, Skipped)
    else Resolved(repaired, mode, env)
  }

  function ExecuteOnce(task: Task, mode: Mode, env: Env): (Task, Status) {
    if env.escape.EarlyEscape? then (task, Escaped)
    else if !task.enabled then (task, Raised)
    else if task.hasAccount && !env.licensed then (task.(enabled := false), Raised)
    else if task.hasAccount && Unavailable(env.account) then
      (if mode.advanceSchedule then DeferUnavailable(task, env.now) else task, Skipped)
    else if DefersForObservation(task, env) then
      (if mode.advanceSchedule then DeferUntilObservationEnd(task, env.now, env.account.observedUntil) else task, Skipped)
    else Due(task, mode, env)
  }

  /** The worker's record of a run it cut off. */
  function RecordTimeout(task: Task, later: int, maxFailures: nat): Task {
    if task.enabled then HandleFailure(task, true, true, later, maxFailures) else task
  }

  /** Start-up recovery of the row. */
  function Recover(task: Task, now: int): Task {
    if !task.enabled then task
    else if task.endAt != 0 && now > task.endAt then task.(enabled := false)
    else if task.nextRunAt.None? then task.(nextRunAt := Some(FirstRunAt(task, now)))
    else task
  }

  // ---------------------------------------------------------------- the statements of a run

  class TaskRow {
    var enabled: bool
    var nextRunAt: Option<int>
    var failureCount: nat
    const startAt: int
    const endAt: int
    const intervalMin: int
    const dayStart: Option<int>
    const dayEnd: Option<int>
    const hasAccount: bool

    constructor (task: Task)
      ensures Contents() == task
    {
      enabled, nextRunAt, failureCount := task.enabled, task.nextRunAt, task.failureCount;
      startAt, endAt, intervalMin := task.startAt, task.endAt, task.intervalMin;
      dayStart, dayEnd, hasAccount := task.dayStart, task.dayEnd, task.hasAccount;
    }

    function Contents(): Task
      reads this
    {
      Task(enabled, nextRunAt, startAt, endAt, intervalMin, dayStart, dayEnd, failureCount, hasAccount)
    }

    method HandleTaskFailure(advance: bool, disablePolicy: bool, later: int, maxFailures: nat)
      modifies this
      ensures Contents() == HandleFailure(old(Contents()), advance, disablePolicy, later, maxFailures)
    {
      failureCount := failureCount + 1;
      if advance {
        var retryAfter := Max(30, intervalMin * 60);
        nextRunAt := Some(later + retryAfter);
      }
      if disablePolicy && failureCount >= maxFailures {
        enabled := false;
      }
    }

    method SuspendTask(until: int)
      modifies this
      ensures Contents() == Suspend(old(Contents()), until)
    {
      if hasAccount && enabled {
        nextRunAt := Some(Max(if nextRunAt.Some? then nextRunAt.value else 0, until));
      }
    }

    method ValidateAndResolve(mode: Mode, env: Env) returns (exit: Option<Status>)
      modifies this
      ensures exit.Some? ==> ExecuteOnce(old(Contents()), mode, env) == (Contents(), exit.value)
      ensures exit.None? ==> ExecuteOnce(old(Contents()), mode, env) == Constrained(Contents(), mode, env)
    {
      // A lookup raises: the session is left and what it has not committed is lost.
      if env.escape.EarlyEscape? {
        return Some(Escaped);
      }
      if !enabled {
        return Some(Raised);
      }
      if hasAccount && !env.licensed {
        enabled := false;
        return Some(Raised);
      }
      if hasAccount {
        if env.account.Account? && env.account.reauthRequired {
          if mode.advanceSchedule {
            nextRunAt := Some(env.now + Max(1, intervalMin) * 60);
          }
          return Some(Skipped);
        }
        if env.account.Account? && !env.account.online {
          if mode.advanceSchedule {
            nextRunAt := Some(env.now + Max(1, intervalMin) * 60);
          }
          return Some(Skipped);
        }
        if env.account.Account? && env.account.observing && !env.account.hasBudget {
          if mode.advanceSchedule {
            nextRunAt := Some(Max(env.now + 60, env.account.observedUntil));
          }
          return Some(Skipped);
        }
      }
      if mode.advanceSchedule && nextRunAt.None? {
        nextRunAt := Some(if startAt > 0 then Max(env.now, startAt) else env.now);
      }
      if mode.advanceSchedule && nextRunAt.value != 0 && nextRunAt.value > env.now {
        return Some(Skipped);
      }
      if env.escape.LateEscape? {
        return Some(Escaped);
      }
      if env.sendableTargets == 0 {
        if env.configuredTargets > 0 {
          if mode.advanceSchedule {
            nextRunAt := Some(env.now + intervalMin * 60);
            return Some(Skipped);
          }
          HandleTaskFailure(false, false, env.later, env.maxFailures);
          return Some(FailedRun);
        }
        HandleTaskFailure(mode.advanceSchedule, mode.advanceSchedule, env.later, env.maxFailures);
        return Some(FailedRun);
      }
      if !env.hasClient {
        HandleTaskFailure(mode.advanceSchedule, mode.advanceSchedule, env.later, env.maxFailures);
        return Some(FailedRun);
      }
      return None;
    }

    method CheckScheduleConstraints(mode: Mode, env: Env) returns (exit: Option<Status>)
      modifies this
      ensures exit.Some? ==> Constrained(old(Contents()), mode, env) == (Contents(), exit.value)
      ensures exit.None? ==> Contents() == old(Contents()) && Constrained(Contents(), mode, env) == Send(Contents(), mode, env)
    {
      if mode.respectConstraints {
        if startAt != 0 && env.now < startAt {
          if mode.advanceSchedule {
            nextRunAt := Some(Max(if nextRunAt.Some? then nextRunAt.value else 0, startAt));
          }
          return Some(Skipped);
        }
        if endAt != 0 && env.now > endAt {
          if mode.advanceSchedule {
            enabled := false;
          }
          return Some(Skipped);
        }
        if OutsideHours(Contents(), env.hour) {
          if mode.advanceSchedule {
            nextRunAt := Some(env.now + intervalMin * 60);
          }
          return Some(Skipped);
        }
      }
      if hasAccount && env.recheck.observing && (!env.recheck.hasBudget || !env.recheck.claimed) {
        if mode.advanceSchedule {
          nextRunAt := Some(Max(env.now + 60, env.recheck.observedUntil));
        }
        return Some(Skipped);
      }
      return None;
    }

    method ExecuteTaskOnce(mode: Mode, env: Env) returns (status: Status)
      modifies this
      ensures (Contents(), status) == ExecuteOnce(old(Contents()), mode, env)
    {
      var exit := ValidateAndResolve(mode, env);
      if exit.Some? {
        return exit.value;
      }
      exit := CheckScheduleConstraints(mode, env);
      if exit.Some? {
        return exit.value;
      }
      if env.result.Sent? {
        failureCount := 0;
        if mode.advanceSchedule {
          nextRunAt := Some(env.now + intervalMin * 60);
        }
        return Succeeded;
      }
      HandleTaskFailure(mode.advanceSchedule, mode.advanceSchedule, env.later, env.maxFailures);
      if env.result.FloodWait? && env.result.ban {
        var suspendUntil := env.now + 24 * 3600;
        if env.result.floodUntil.Some? {
          suspendUntil := Max(suspendUntil, env.result.floodUntil.value);
        }
        SuspendTask(suspendUntil);
      } else if env.result.PeerFlood? {
        SuspendTask(env.result.until);
      }
      return FailedRun;
    }
  }

  // ---------------------------------------------------------------- spacing, one run

  /** The next run is at least one interval after the start of the last successful one. */
  ghost predicate Spaced(task: Task, last: Option<int>) {
    last.Some? ==> task.nextRunAt.Some? && task.nextRunAt.value >= last.value + task.intervalMin * 60
  }

  ghost predicate ClockFits(task: Task, last: Option<int>, env: Env) {
    0 <= env.now <= env.later && task.intervalMin >= 1 && (last.Some? ==> last.value <= env.now)
  }

  ghost function LastAfter(last: Option<int>, status: Status, now: int): Option<int> {
    if status == Succeeded then Some(now) else last
  }

  /** Every exit path of a scheduled run keeps the spacing, except the early observation deferral - and
      that one keeps it exactly when what it writes is late enough. A run succeeds only when spaced. */
  lemma RunSpacingExactly(task: Task, last: Option<int>, env: Env)
    requires ClockFits(task, last, env) && Spaced(task, last)
    ensures var (task', status) := ExecuteOnce(task, SCHEDULED, env);
            && (Spaced(task', LastAfter(last, status, env.now))
                <==> !(DefersForObservation(task, env) && last.Some?
                       && Max(env.now + 60, env.account.observedUntil) < last.value + task.intervalMin * 60))
            && (status == Succeeded && last.Some? ==> env.now >= last.value + task.intervalMin * 60)
            && task'.intervalMin == task.intervalMin
  {
  }

  /** An exception ends the run of a task that is due: at once, or after the account has been found licensed and
      available and a missing next run has been repaired to a time that has come. */
  predicate EscapesWhileDue(task: Task, env: Env) {
    match env.escape
    case NoEscape => false
    case EarlyEscape => task.nextRunAt.None? || task.nextRunAt.value <= env.now
    case LateEscape =>
      && (task.hasAccount ==> env.licensed && !Unavailable(env.account) && !DefersForObservation(task, env))
      && (if task.nextRunAt.None? then FirstRunAt(task, env.now) else task.nextRunAt.value) <= env.now
  }

  /** After a scheduled run an enabled task is disabled or its next run lies in the future - exactly unless an
      exception escapes while it is due: that leaves the task due again at once. */
  lemma NotDueAgainExactly(task: Task, env: Env)
    requires task.enabled && 0 <= env.now <= env.later && task.intervalMin >= 1
    ensures var (task', status) := ExecuteOnce(task, SCHEDULED, env);
            !task'.enabled || (task'.nextRunAt.Some? && task'.nextRunAt.value > env.now) <==> !EscapesWhileDue(task, env)
  {
  }

  // ---------------------------------------------------------------- when a run sends

  /** Licence, availability and observation of the account let a run pass. */
  ghost predicate AccountPasses(task: Task, env: Env) {
    task.hasAccount ==> && env.licensed
                        && (env.account.Account? ==> && !env.account.reauthRequired && env.account.online
                                                     && (env.account.observing ==> env.account.hasBudget))
  }

  ghost predicate RecheckPasses(task: Task, env: Env) {
    task.hasAccount && env.recheck.observing ==> env.recheck.hasBudget && env.recheck.claimed
  }

  ghost predicate IsDue(task: Task, env: Env) {
    if task.nextRunAt.Some? then task.nextRunAt.value <= env.now else task.startAt <= env.now
  }

  /** The hours of a window, counted from its start around the clock; 0 to 24 is the whole day. */
  ghost predicate InWindow(dayStart: int, dayEnd: int, hour: int) {
    exists k :: 0 <= k < (if dayStart <= dayEnd then dayEnd - dayStart else dayEnd - dayStart + 24) && hour == HourAfter(dayStart, k)
  }

  function HourAfter(start: int, k: int): int {
    (start + k) % 24
  }

  ghost predicate HoursPass(task: Task, hour: int) {
    task.dayStart.None? || task.dayEnd.None? || InWindow(task.dayStart.value, task.dayEnd.value, hour)
  }

  /** Hours of the day, the end of a day being also 24. */
  ghost predicate Hours(task: Task, env: Env) {
    && 0 <= env.hour < 24 && (task.dayStart.Some? ==> 0 <= task.dayStart.value <= 24)
    && (task.dayEnd.Some? ==> 0 <= task.dayEnd.value <= 24)
  }

  ghost predicate DatesPass(task: Task, env: Env) {
    (task.startAt == 0 || task.startAt <= env.now) && (task.endAt == 0 || env.now <= task.endAt)
  }

  lemma WindowExactly(task: Task, env: Env)
    requires Hours(task, env)
    ensures HoursPass(task, env.hour) <==> !OutsideHours(task, env.hour)
  {
    if task.dayStart.Some? && task.dayEnd.Some? && !OutsideHours(task, env.hour) {
      var start := task.dayStart.value;
      var k := if start <= env.hour then env.hour - start else env.hour - start + 24;
      assert env.hour == HourAfter(start, k);
    }
  }

  /** How long a failed send suspends the account's tasks. */
  ghost function SuspendedUntil(env: Env): Option<int> {
    match env.result
    case FloodWait(ban, floodUntil) =>
      if !ban then None
      else if floodUntil.Some? && floodUntil.value > env.now + 86400 then floodUntil else Some(env.now + 86400)
    case PeerFlood(until) => Some(until)
    case _ => None
  }

  /** A failure is counted, the run is put off from the time of the failure, and the limit disables the task. */
  ghost predicate FailureNoted(task: Task, task': Task, env: Env) {
    var retry := env.later + if task.intervalMin * 60 > 30 then task.intervalMin * 60 else 30;
    task' == task.(failureCount := task.failureCount + 1, enabled := task.failureCount + 1 < env.maxFailures, nextRunAt := Some(retry))
  }

  /** A scheduled run sends exactly if it is due, everything before the sending lets it pass, and the hour is within the
      task's daily hours, also where these cross midnight. A success puts it off by its interval and clears its failures;
      a failure is noted, and a flood error suspends the task beyond that while it is enabled. */
  lemma SendsExactly(task: Task, env: Env)
    requires Hours(task, env) && 0 <= env.now
    ensures var (task', status) := ExecuteOnce(task, SCHEDULED, env);
            var sends := && task.enabled && env.escape == NoEscape && AccountPasses(task, env) && IsDue(task, env)
                         && env.sendableTargets > 0 && env.hasClient && DatesPass(task, env) && HoursPass(task, env.hour)
                         && RecheckPasses(task, env);
            && (status == Succeeded <==> sends && env.result == Sent)
            && (status == Succeeded ==> task' == task.(nextRunAt := Some(env.now + task.intervalMin * 60), failureCount := 0))
            && (sends && env.result != Sent ==>
                  && status == FailedRun
                  && var until := SuspendedUntil(env);
                     if until.Some? && task.hasAccount && task'.enabled then
                       && task'.nextRunAt.Some? && task'.nextRunAt.value >= until.value
                       && exists noted :: && FailureNoted(task, noted, env) && task' == noted.(nextRunAt := task'.nextRunAt)
                                          && (task'.nextRunAt == until || task'.nextRunAt == noted.nextRunAt)
                                          && task'.nextRunAt.value >= noted.nextRunAt.value
                     else FailureNoted(task, task', env))
  {
    WindowExactly(task, env);
    hide OutsideHours, HoursPass;
    var sends := && task.enabled && env.escape == NoEscape && AccountPasses(task, env) && IsDue(task, env)
                 && env.sendableTargets > 0 && env.hasClient && DatesPass(task, env) && HoursPass(task, env.hour)
                 && RecheckPasses(task, env);
    if sends && env.result != Sent {
      var noted := HandleFailure(task, true, true, env.later, env.maxFailures);
      assert FailureNoted(task, noted, env);
    }
  }

  /** What a scheduled run leaves that something before the sending has stopped. */
  lemma StopsExactly(task: Task, env: Env)
    requires Hours(task, env) && 0 <= env.now && task.enabled && env.escape == NoEscape
    ensures var (task', status) := ExecuteOnce(task, SCHEDULED, env);
            var repaired := if task.nextRunAt.Some? then task
                            else task.(nextRunAt := Some(if task.startAt > env.now then task.startAt else env.now));
            var put := (at: int) => task.(nextRunAt := Some(at));
            var account := AccountPasses(task, env);
            var ready := account && IsDue(task, env) && env.sendableTargets > 0 && env.hasClient;
            && (task.hasAccount && !env.licensed ==> status == Raised && task' == task.(enabled := false))
            && (task.hasAccount && env.licensed && env.account.Account? && (env.account.reauthRequired || !env.account.online) ==>
                  status == Skipped && task' == put(env.now + 60 * if task.intervalMin > 1 then task.intervalMin else 1))
            && (task.hasAccount && env.licensed && env.account.Account? && !env.account.reauthRequired && env.account.online
                && env.account.observing && !env.account.hasBudget ==>
                  status == Skipped && task' == put(if env.account.observedUntil > env.now + 60 then env.account.observedUntil else env.now + 60))
            && (account && !IsDue(task, env) ==> status == Skipped && task' == repaired)
            && (account && IsDue(task, env) && env.sendableTargets == 0 && env.configuredTargets > 0 ==>
                  status == Skipped && task' == put(env.now + task.intervalMin * 60))
            && (account && IsDue(task, env) && (if env.sendableTargets == 0 then env.configuredTargets == 0 else !env.hasClient) ==>
                  status == FailedRun && FailureNoted(task, task', env))
            && (ready && task.startAt > env.now ==> status == Skipped && task' == put(task.startAt))
            && (ready && DatesPass(task.(endAt := 0), env) && !DatesPass(task, env) ==>
                  status == Skipped && task' == repaired.(enabled := false))
            && (ready && DatesPass(task, env) && !HoursPass(task, env.hour) ==>
                  status == Skipped && task' == put(env.now + task.intervalMin * 60))
            && (ready && DatesPass(task, env) && HoursPass(task, env.hour) && !RecheckPasses(task, env) ==>
                  status == Skipped && task' == put(if env.recheck.observedUntil > env.now + 60 then env.recheck.observedUntil else env.now + 60))
  {
    WindowExactly(task, env);
    hide OutsideHours, HoursPass;
  }

  /** A run that is not to be made, or that an exception ends, writes nothing but a repaired next run. */
  lemma LeavesRowExactly(task: Task, env: Env)
    requires 0 <= env.now && (!task.enabled || env.escape != NoEscape)
    ensures var (task', status) := ExecuteOnce(task, SCHEDULED, env);
            && (env.escape == EarlyEscape ==> status == Escaped && task' == task)
            && (env.escape != EarlyEscape && !task.enabled ==> status == Raised && task' == task)
            && (task.enabled && env.escape == LateEscape && AccountPasses(task, env) ==>
                  && (status == Escaped <==> IsDue(task, env)) && (status == Escaped || status == Skipped)
                  && task' == (if task.nextRunAt.Some? then task
                               else task.(nextRunAt := Some(if task.startAt > env.now then task.startAt else env.now))))
  {
  }

  /** A manual run looks at no schedule: it sends exactly if account, targets, client and observation allow it, and
      counts a failure without ever disabling the task. */
  lemma ManualSendsExactly(task: Task, env: Env)
    ensures var (task', status) := ExecuteOnce(task, MANUAL, env);
            var ready := task.enabled && env.escape == NoEscape && AccountPasses(task, env);
            var sends := ready && env.sendableTargets > 0 && env.hasClient && RecheckPasses(task, env);
            && (status == Succeeded <==> sends && env.result == Sent)
            && (status == Succeeded ==> task' == task.(failureCount := 0))
            && (status == FailedRun <==> (ready && (env.sendableTargets == 0 || !env.hasClient)) || (sends && env.result != Sent))
            && (status == FailedRun ==>
                  && task' == task.(failureCount := task.failureCount + 1, nextRunAt := task'.nextRunAt)
                  && task'.nextRunAt == if sends && SuspendedUntil(env).Some? && task.hasAccount
                                           && !(task.nextRunAt.Some? && task.nextRunAt.value > SuspendedUntil(env).value)
                                           && !(task.nextRunAt.None? && SuspendedUntil(env).value < 0)
                                        then SuspendedUntil(env)
                                        else if sends && SuspendedUntil(env).Some? && task.hasAccount && task.nextRunAt.None? then Some(0)
                                        else task.nextRunAt)
            && (status != Succeeded && status != FailedRun ==>
                  task' == task.(enabled := task.enabled && !(env.escape != EarlyEscape && task.hasAccount && !env.licensed)))
  {
  }

  /** The row's other writers: the record of a timeout is a failure like any other, a suspension only raises the next run
      of an enabled task with an account, and start-up ends or repairs it. */
  lemma OtherWritersExactly(task: Task, env: Env, until: int)
    requires task.enabled
    ensures FailureNoted(task, RecordTimeout(task, env.later, env.maxFailures), env)
    ensures !task.hasAccount ==> Suspend(task, until) == task
    ensures task.hasAccount ==>
              Suspend(task, until) == task.(nextRunAt := if task.nextRunAt.Some? && task.nextRunAt.value > until then task.nextRunAt
                                                         else if task.nextRunAt.None? && until < 0 then Some(0) else Some(until))
    ensures var ended := task.endAt != 0 && env.now > task.endAt;
            Recover(task, env.now) == if ended then task.(enabled := false)
                                      else if task.nextRunAt.Some? then task
                                      else task.(nextRunAt := Some(if task.startAt > env.now && task.startAt > 0 then task.startAt else env.now))
    ensures var off := task.(enabled := false);
            RecordTimeout(off, env.later, env.maxFailures) == Suspend(off, until) == Recover(off, env.now) == off
  {
  }

  /** A manual run moves the schedule only by suspending the account's tasks, and then never forward. */
  lemma ManualRunKeepsSchedule(task: Task, last: Option<int>, env: Env)
    requires Spaced(task, last)
    ensures var (task', status) := ExecuteOnce(task, MANUAL, env);
            && Spaced(task', last) && task'.intervalMin == task.intervalMin
            && (task'.nextRunAt != task.nextRunAt ==>
                  (env.result.FloodWait? || env.result.PeerFlood?) && task'.nextRunAt.Some?
                  && (task.nextRunAt.Some? ==> task'.nextRunAt.value > task.nextRunAt.value))
  {
  }

  // ---------------------------------------------------------------- spacing, whole runs

  /** What changes the row without a user edit. */
  datatype Event =
    | ScheduledRun(env: Env)
    | ManualRun(env: Env)
    | SuspendedByOther(at: int, until: int)
    | TimedOut(at: int, maxFailures: nat)
    | Startup(at: int)
  {
    function Start(): int {
      if ScheduledRun? || ManualRun? then env.now else at
    }
    function End(): int {
      if ScheduledRun? || ManualRun? then env.later else at
    }
    /** Scheduled runs and the record of their timeout hold the processing lock; nothing else does. */
    predicate Locked() {
      ScheduledRun? || TimedOut?
    }
  }

  function Outcome(task: Task, e: Event): (Task, Status) {
    match e
    case ScheduledRun(env) => ExecuteOnce(task, SCHEDULED, env)
    case ManualRun(env) => ExecuteOnce(task, MANUAL, env)
    case SuspendedByOther(_, until) => (Suspend(task, until), Skipped)
    case TimedOut(at, maxFailures) => (RecordTimeout(task, at, maxFailures), FailedRun)
    case Startup(at) => (Recover(task, at), Skipped)
  }

  /** An event between its load of the row and its commit. The session keeps the row as loaded; `since` is
      the last success at that time. */
  datatype Flight = Flight(loaded: Task, event: Event, since: Option<int>)

  /** The row, the start of the last success committed, all of these starts, the events in flight, and when the
      processing lock was last given back. */
  datatype State = State(
    task: Task, last: Option<int>, successes: seq<int>, flights: map<int, Flight>, freed: int, clock: int)

  datatype Step = Load(id: int, event: Event, at: int) | Store(id: int, at: int)

  /** A commit writes the columns the session has changed, over whatever the row holds by then. */
  function Written(row: Task, loaded: Task, result: Task): Task {
    row.(enabled := if result.enabled != loaded.enabled then result.enabled else row.enabled,
         nextRunAt := if result.nextRunAt != loaded.nextRunAt then result.nextRunAt else row.nextRunAt,
         failureCount := if result.failureCount != loaded.failureCount then result.failureCount else row.failureCount)
  }

  function Next(s: State, step: Step): State {
    match step
    case Load(id, e, at) =>
      if id in s.flights || (e.Locked() && exists f :: f in s.flights && s.flights[f].event.Locked()) then s.(clock := at)
      else s.(flights := s.flights[id := Flight(s.task, e, s.last)], clock := at)
    case Store(id, at) =>
      if id !in s.flights then s.(clock := at)
      else
        var f := s.flights[id];
        var (result, status) := Outcome(f.loaded, f.event);
        var row := Written(s.task, f.loaded, result);
        var s' := s.(task := row, flights := s.flights - {id}, freed := if f.event.Locked() then at else s.freed, clock := at);
        if f.event.ScheduledRun? && status == Succeeded
        then s'.(last := Some(f.event.env.now), successes := s.successes + [f.event.env.now]) else s'
  }

  function Run(s: State, steps: seq<Step>): State
    decreases |steps|
  {
    if steps == [] then s else Run(Next(s, steps[0]), steps[1..])
  }

  /** The clock never goes back; an event reads it before it loads the row - after taking the processing lock, if
      it takes it - and commits after its last look at it. */
  predicate Timely(s: State, step: Step) {
    match step
    case Load(_, e, at) => s.clock <= at && 0 <= e.Start() <= at && e.Start() <= e.End() && (e.Locked() ==> s.freed <= e.Start())
    case Store(id, at) => s.clock <= at && (id in s.flights ==> s.flights[id].event.End() <= at)
  }

  /** A commit that puts the next run too early: the early observation deferral, or a session that loaded the
      row before a success and now writes an earlier time over that success's next run. */
  predicate Undercuts(s: State, step: Step) {
    step.Store? && step.id in s.flights && s.last.Some?
    && var f, due := s.flights[step.id], s.last.value + s.task.intervalMin * 60;
       match f.event
       case ScheduledRun(env) => DefersForObservation(f.loaded, env) && Max(env.now + 60, env.account.observedUntil) < due
       case TimedOut(_, _) => false
       case Startup(at) => Stale(s, f) && Recover(f.loaded, at).nextRunAt != f.loaded.nextRunAt && FirstRunAt(f.loaded, at) < due
       case ManualRun(_) => Stale(s, f) && SuspendedEarlier(f, due)
       case SuspendedByOther(_, _) => Stale(s, f) && SuspendedEarlier(f, due)
  }

  /** A success was committed after the row was loaded. */
  predicate Stale(s: State, f: Flight) {
    f.since != s.last
  }

  predicate SuspendedEarlier(f: Flight, due: int) {
    var result := Outcome(f.loaded, f.event).0;
    result.nextRunAt != f.loaded.nextRunAt && result.nextRunAt.Some? && result.nextRunAt.value < due
  }

  ghost predicate Steady(s: State, steps: seq<Step>)
    decreases |steps|
  {
    steps != [] ==> Timely(s, steps[0]) && !Undercuts(s, steps[0]) && Steady(Next(s, steps[0]), steps[1..])
  }

  ghost predicate SpacedBy(times: seq<int>, gap: int) {
    forall i, j | 0 <= i < j < |times| :: times[j] >= times[i] + gap
  }

  ghost predicate FlightFits(s: State, f: Flight) {
    && Spaced(f.loaded, f.since) && f.loaded.intervalMin == s.task.intervalMin
    && 0 <= f.event.Start() <= f.event.End()
    && (f.event.Locked() ==> f.since == s.last && (s.last.Some? ==> s.last.value <= f.event.Start()))
  }

  /** Everything but the spacing of the row itself. */
  ghost predicate Fits(s: State) {
    && s.task.intervalMin >= 1 && (s.last.Some? ==> s.last.value <= s.freed)
    && (forall f | f in s.flights :: FlightFits(s, s.flights[f]))
    && (forall f, g | f in s.flights && g in s.flights && s.flights[f].event.Locked() && s.flights[g].event.Locked() :: f == g)
    && SpacedBy(s.successes, s.task.intervalMin * 60)
    && (s.successes != [] ==> s.last == Some(s.successes[|s.successes| - 1]))
  }

  ghost predicate Inv(s: State) {
    Fits(s) && Spaced(s.task, s.last)
  }

  /** A commit keeps the row spaced exactly unless it undercuts. */
  lemma StoreKeepsExactly(s: State, id: int, at: int)
    requires Inv(s) && Timely(s, Store(id, at))
    ensures var s' := Next(s, Store(id, at));
            Spaced(s'.task, s'.last) <==> !Undercuts(s, Store(id, at))
  {
    if id !in s.flights {
      return;
    }
    var f := s.flights[id];
    assert FlightFits(s, f);
    hide Fits;
    match f.event {
      case ScheduledRun(env) =>
        RunSpacingExactly(f.loaded, s.last, env);
        SuccessMoves(f.loaded, env);
        hide ExecuteOnce;
      case ManualRun(env) =>
        ManualRunKeepsSchedule(f.loaded, f.since, env);
        hide ExecuteOnce;
      case _ =>
    }
  }

  lemma SuccessMoves(task: Task, env: Env)
    requires task.intervalMin >= 1 && env.now >= 0
    ensures var (task', status) := ExecuteOnce(task, SCHEDULED, env);
            status == Succeeded ==> task'.nextRunAt == Some(env.now + task.intervalMin * 60) && task'.nextRunAt != task.nextRunAt
  {
  }

  lemma LoadFits(s: State, id: int, e: Event, at: int)
    requires Inv(s) && Timely(s, Load(id, e, at))
    ensures Inv(Next(s, Load(id, e, at)))
  {
    hide SpacedBy;
    var s' := Next(s, Load(id, e, at));
    forall f | f in s'.flights ensures FlightFits(s', s'.flights[f]) {
      assert f != id || id in s.flights ==> f in s.flights && FlightFits(s, s.flights[f]);
    }
    hide FlightFits;
  }

  lemma StoreFits(s: State, id: int, at: int)
    requires Inv(s) && Timely(s, Store(id, at))
    ensures Fits(Next(s, Store(id, at)))
  {
    var s' := Next(s, Store(id, at));
    if id !in s.flights {
      return;
    }
    var f := s.flights[id];
    assert FlightFits(s, f);
    assert forall g | g in s'.flights :: g in s.flights && g != id && FlightFits(s, s.flights[g]);
    assert f.event.Locked() ==> forall g | g in s'.flights :: !s.flights[g].event.Locked();
    if f.event.ScheduledRun? && Outcome(f.loaded, f.event).1 == Succeeded {
      RunSpacingExactly(f.loaded, s.last, f.event.env);
    }
    hide ExecuteOnce, Outcome, Spaced;
  }

  lemma {:induction false} RunKeeps(s: State, steps: seq<Step>)
    requires Inv(s) && Steady(s, steps)
    ensures Inv(Run(s, steps))
    decreases |steps|
  {
    hide Fits, Spaced, Next, Timely, Undercuts;
    if steps != [] {
      if steps[0].Load? {
        LoadFits(s, steps[0].id, steps[0].event, steps[0].at);
      } else {
        StoreKeepsExactly(s, steps[0].id, steps[0].at);
        StoreFits(s, steps[0].id, steps[0].at);
      }
      RunKeeps(Next(s, steps[0]), steps[1..]);
    }
  }

  /** Before anything has happened to the row. */
  function Fresh(task: Task): State {
    State(task, None, [], map[], 0, 0)
  }

  /** Whatever overlaps - runs queued twice, manual runs, suspensions, timeouts, restarts, runs cut off by an
      exception - any two successful scheduled runs of a task start at least one interval apart, as long as no
      commit undercuts. */
  lemma SuccessfulRunsSpaced(task: Task, steps: seq<Step>)
    requires task.intervalMin >= 1 && Steady(Fresh(task), steps)
    ensures SpacedBy(Run(Fresh(task), steps).successes, task.intervalMin * 60)
  {
    RunKeeps(Fresh(task), steps);
    IntervalStays(Fresh(task), steps);
    hide Run;
  }

  lemma {:induction false} IntervalStays(s: State, steps: seq<Step>)
    ensures Run(s, steps).task.intervalMin == s.task.intervalMin
    decreases |steps|
  {
    hide Outcome;
    if steps != [] {
      IntervalStays(Next(s, steps[0]), steps[1..]);
    }
  }

  // ---------------------------------------------------------------- what a commit leaves of the row

  /** A commit takes over what its session has changed and leaves the rest of the row as others have written it since;
      a load and a step out of place leave it altogether. */
  lemma StoreWritesExactly(s: State, step: Step)
    ensures var s' := Next(s, step);
            && s'.clock == step.at
            && (step.Load? || step.id !in s.flights ==> s'.task == s.task && s'.last == s.last && s'.successes == s.successes)
            && (step.Store? && step.id in s.flights ==>
                  var loaded, result := s.flights[step.id].loaded, Outcome(s.flights[step.id].loaded, s.flights[step.id].event).0;
                  && s'.task == s.task.(enabled := s'.task.enabled, nextRunAt := s'.task.nextRunAt, failureCount := s'.task.failureCount)
                  && (if result.enabled == loaded.enabled then s'.task.enabled == s.task.enabled else s'.task.enabled == result.enabled)
                  && (if result.nextRunAt == loaded.nextRunAt then s'.task.nextRunAt == s.task.nextRunAt else s'.task.nextRunAt == result.nextRunAt)
                  && (if result.failureCount == loaded.failureCount then s'.task.failureCount == s.task.failureCount
                      else s'.task.failureCount == result.failureCount))
  {
    hide ExecuteOnce;
  }

  /** With nothing between its load and its commit, an event leaves its own result. */
  lemma UndisturbedIsOutcome(s: State, id: int, e: Event, at: int, end: int)
    requires id !in s.flights && (e.Locked() ==> forall f | f in s.flights :: !s.flights[f].event.Locked())
    ensures Next(Next(s, Load(id, e, at)), Store(id, end)).task == Outcome(s.task, e).0
  {
    OutcomeKeepsBounds(s.task, e);
    hide Outcome;
  }

  lemma OutcomeKeepsBounds(task: Task, e: Event)
    ensures var result := Outcome(task, e).0;
            result == task.(enabled := result.enabled, nextRunAt := result.nextRunAt, failureCount := result.failureCount)
  {
    match e
    case ScheduledRun(env) => RunKeepsBounds(task, SCHEDULED, env);
    case ManualRun(env) => RunKeepsBounds(task, MANUAL, env);
    case _ => hide ExecuteOnce;
  }

  lemma RunKeepsBounds(task: Task, mode: Mode, env: Env)
    ensures var result := ExecuteOnce(task, mode, env).0;
            result == task.(enabled := result.enabled, nextRunAt := result.nextRunAt, failureCount := result.failureCount)
  {
  }

  /** Whatever overlaps, no run, suspension, timeout or restart enables a disabled task again. */
  lemma {:induction false} DisabledStays(s: State, steps: seq<Step>)
    requires !s.task.enabled
    ensures !Run(s, steps).task.enabled
    decreases |steps|
  {
    if steps != [] {
      StoreWritesExactly(s, steps[0]);
      if steps[0].Store? && steps[0].id in s.flights {
        EnablesNothing(s.flights[steps[0].id].loaded, s.flights[steps[0].id].event);
      }
      hide Next, Outcome;
      DisabledStays(Next(s, steps[0]), steps[1..]);
    }
  }

  lemma EnablesNothing(task: Task, e: Event)
    ensures Outcome(task, e).0.enabled ==> task.enabled
  {
  }

  // ---------------------------------------------------------------- where the spacing is lost

  ghost predicate Orderly(s: State, steps: seq<Step>)
    decreases |steps|
  {
    steps != [] ==> Timely(s, steps[0]) && Orderly(Next(s, steps[0]), steps[1..])
  }

  lemma {:induction false} RunTwo(s: State, a: Step, b: Step, rest: seq<Step>)
    ensures Run(s, [a, b] + rest) == Run(Next(Next(s, a), b), rest)
    ensures Orderly(s, [a, b] + rest) <==> Timely(s, a) && Timely(Next(s, a), b) && Orderly(Next(Next(s, a), b), rest)
  {
    hide Next, Timely;
    assert ([a, b] + rest)[1..] == [b] + rest && ([b] + rest)[1..] == rest;
    assert ([a, b] + rest)[0] == a && ([b] + rest)[0] == b;
    assert Run(s, [a, b] + rest) == Run(Next(s, a), [b] + rest);
  }

  function Sending(now: int): Event {
    ScheduledRun(Env(now, 12, now, true, Account(false, true, false, true, 0), 1, 1, true, Recheck(false, true, true, 0), Sent, 5, NoEscape))
  }

  /** A scheduled run that sends, from load to commit. */
  lemma Sends(s: State, id: int, now: int)
    requires s.task.enabled && s.task.nextRunAt.Some? && s.task.nextRunAt.value <= now && 0 <= now && s.task.intervalMin >= 1
    requires s.task.startAt == s.task.endAt == 0 && s.task.dayStart.None? && s.task.hasAccount && id !in s.flights
    requires forall f | f in s.flights :: !s.flights[f].event.Locked()
    ensures Next(Next(s, Load(id, Sending(now), now)), Store(id, now))
         == State(s.task.(nextRunAt := Some(now + s.task.intervalMin * 60), failureCount := 0),
                  Some(now), s.successes + [now], s.flights, now, now)
  {
    var s1 := Next(s, Load(id, Sending(now), now));
    assert s1.flights - {id} == s.flights;
    SuccessMoves(s.task, Sending(now).env);
  }

  const HOURLY := Task(true, Some(0), 0, 0, 60, None, None, 0, true)

  const DEFERRED := ScheduledRun(Env(10, 12, 10, true, Account(false, true, true, false, 100), 1, 1, true,
                                     Recheck(false, true, true, 0), Sent, 5, NoEscape))

  /** A scheduled run at 10 that the observation puts off to 100. */
  lemma Defers(s: State)
    requires s.task == HOURLY.(nextRunAt := Some(3600)) && s.flights == map[]
    ensures Next(Next(s, Load(1, DEFERRED, 10)), Store(1, 10))
         == s.(task := HOURLY.(nextRunAt := Some(100)), freed := 10, clock := 10)
  {
    var s1 := Next(s, Load(1, DEFERRED, 10));
    assert s1.flights - {1} == map[];
  }

  /** With an observation the spacing is lost: sent at 0, put off by a second queue entry at 10 to the
      observation's end at 100, sent again at 100 - with an interval of an hour. */
  lemma {:induction false} ObservationBreaksSpacing()
    ensures exists steps: seq<Step> :: Orderly(Fresh(HOURLY), steps) && Run(Fresh(HOURLY), steps).successes == [0, 100]
  {
    var s0 := Fresh(HOURLY);
    Sends(s0, 0, 0);
    var s1 := Next(Next(s0, Load(0, Sending(0), 0)), Store(0, 0));
    Defers(s1);
    var s2 := Next(Next(s1, Load(1, DEFERRED, 10)), Store(1, 10));
    Sends(s2, 2, 100);
    var p1, p2 := [Load(1, DEFERRED, 10), Store(1, 10)], [Load(2, Sending(100), 100), Store(2, 100)] + [];
    RunTwo(s0, Load(0, Sending(0), 0), Store(0, 0), p1 + p2);
    RunTwo(s1, Load(1, DEFERRED, 10), Store(1, 10), p2);
    RunTwo(s2, Load(2, Sending(100), 100), Store(2, 100), []);
    hide Outcome, ExecuteOnce;
    var steps := [Load(0, Sending(0), 0), Store(0, 0)] + (p1 + p2);
    assert Orderly(s0, steps) && Run(s0, steps).successes == [0] + [100];
  }

  /** A manual run that loaded the row before a success lowers the next run that success has written: loaded
      at 0, sent by the scheduler at 0, suspended at 50 until 100 by the manual run's flood error, sent again
      at 100 - with an interval of an hour. */
  lemma {:induction false} StaleSuspensionBreaksSpacing()
    ensures exists steps: seq<Step> :: Orderly(Fresh(HOURLY), steps) && Run(Fresh(HOURLY), steps).successes == [0, 100]
  {
    var floods := ManualRun(Env(0, 12, 50, true, Account(false, true, false, true, 0), 1, 1, true,
                                Recheck(false, true, true, 0), PeerFlood(100), 5, NoEscape));
    var s0 := Fresh(HOURLY);
    var loaded := Next(s0, Load(9, floods, 0));
    Sends(loaded, 0, 0);
    var sent := Next(Next(loaded, Load(0, Sending(0), 0)), Store(0, 0));
    var lowered := Next(sent, Store(9, 50));
    assert sent.task.nextRunAt == Some(3600);
    assert Outcome(HOURLY, floods).0.nextRunAt == Some(100);
    assert lowered.task.nextRunAt == Some(100) && lowered.flights == map[];
    Sends(lowered, 2, 100);
    var a, b, c := [Load(9, floods, 0), Load(0, Sending(0), 0)], [Store(0, 0), Store(9, 50)], [Load(2, Sending(100), 100), Store(2, 100)];
    RunTwo(s0, Load(9, floods, 0), Load(0, Sending(0), 0), b + (c + []));
    RunTwo(Next(loaded, Load(0, Sending(0), 0)), Store(0, 0), Store(9, 50), c + []);
    RunTwo(lowered, Load(2, Sending(100), 100), Store(2, 100), []);
    var steps := a + (b + (c + []));
    assert Orderly(s0, steps) && Run(s0, steps).successes == [0] + [100];
  }
}
