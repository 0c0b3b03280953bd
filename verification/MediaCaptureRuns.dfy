/**
 Whole runs of the capture protocol: any interleaving of sessions, with copies in flight between a claim
 and its completion, lost workers, edits, clears and deletions.

 Besides the tables a state holds the copy workers in flight and four records the program does not keep:
 the log of all writes of a task revision, what each capture was opened for and how long the log was
 then, which task ids were ever used (ids are never reused), and which tasks a batch edit has touched.
 */
module MediaCaptureRuns {
  import opened Common
  import opened MediaCapture

  datatype Phase = Copying | Rejected(code: Code)
  datatype Worker = Worker(captureId: Id, phase: Phase)
  datatype Writer = ByCapture(captureId: Id) | ByUser
  datatype Write = Write(taskId: Id, revision: nat, writer: Writer)
  datatype Birth = Birth(taskId: Id, expected: nat, since: nat)

  datatype State = State(
    tasks: map<Id, Task>, captures: Captures, workers: map<Id, Worker>,
    log: seq<Write>, births: map<Id, Birth>, known: set<Id>, batched: set<Id>)
  {
    function Tables(): Store {
      Store(tasks, captures)
    }

    function With(store: Store): State {
      this.(tasks := store.tasks, captures := store.captures)
    }
  }

  const INITIAL := State(map[], map[], map[], [], map[], {}, {})

  datatype Step =
    | NewTask(task: Id, owner: int, account: int, buttons: bool, length: nat, version: int)
    | Open(capture: Id, task: Id, user: int, expected: nat, actor: Option<int>, env: Env, now: int, expiresAt: int)
    | Activated(capture: Id, sender: int, env: Env, prompt: int, now: int)
    | Replied(worker: Id, capture: Id, sender: int, prompt: int, source: int, env: Env, now: int)
    | CopyBroke(worker: Id, code: Code)
    | CopyDone(worker: Id, saved: int, now: int)
    | RejectionReported(worker: Id, now: int)
    | WorkerLost(worker: Id)
    | Polled(capture: Id, task: Id, user: int, now: int)
    | Cleared(task: Id, user: int, expected: nat)
    | Saved(task: Id, user: int, expected: nat, account: int, buttons: bool, length: nat)
    | BotSet(task: Id, loaded: nat, buttons: bool, length: nat)
    | BatchEdited(ids: seq<Id>, user: int, edit: Edit)
    | Migrated(task: Id, expected: nat, verified: Option<int>)
    | TaskDeleted(task: Id)
    | AccountDeleted(account: int)

  function Logged(s: State, ok: bool, write: Write): State {
    if ok then s.(log := s.log + [write]) else s
  }

  function Next(s: State, step: Step): State {
    match step
    case NewTask(t, owner, account, buttons, length, version) =>
      if t in s.known then s
      else s.(tasks := s.tasks[t := Task(owner, account, 1, buttons, length, None, version)], known := s.known + {t})
    case Open(c, t, user, expected, actor, env, now, expiresAt) =>
      if c in s.births then s
      else
        var (store, error) := Create(s.Tables(), c, t, user, expected, actor, env, now, expiresAt);
        if error.Some? then s.With(store)
        else s.With(store).(births := s.births[c := Birth(t, expected, |s.log|)])
    case Activated(c, sender, env, prompt, now) =>
      s.With(Activate(s.Tables(), c, sender, env, prompt, now).0)
    case Replied(w, c, sender, prompt, source, env, now) =>
      if w in s.workers then s
      else
        var (store, r) := Claim(s.Tables(), c, sender, prompt, source, env, now);
        if r.Claimed? then s.With(store).(workers := s.workers[w := Worker(c, Copying)]) else s.With(store)
    case CopyBroke(w, code) =>
      if w !in s.workers || s.workers[w].phase != Copying then s
      else s.With(Release(s.Tables(), s.workers[w].captureId, code)).(workers := s.workers - {w})
    case CopyDone(w, saved, now) =>
      if w !in s.workers || s.workers[w].phase != Copying then s
      else
        var c := s.workers[w].captureId;
        var (store, error) := Complete(s.Tables(), c, saved, now);
        if error.Some? then s.With(store).(workers := s.workers[w := Worker(c, Rejected(error.value))])
        else
          var capture := s.captures[c];
          s.With(store).(workers := s.workers - {w},
                         log := s.log + [Write(capture.taskId, capture.expectedRevision + 1, ByCapture(c))])
    case RejectionReported(w, now) =>
      if w !in s.workers || s.workers[w].phase == Copying then s
      else s.With(FailCapture(s.Tables(), s.workers[w].captureId, s.workers[w].phase.code, now)).(workers := s.workers - {w})
    case WorkerLost(w) => s.(workers := s.workers - {w})
    case Polled(c, t, user, now) => s.With(Poll(s.Tables(), c, t, user, now))
    case Cleared(t, user, expected) =>
      var (store, ok) := DeleteMedia(s.Tables(), t, user, expected);
      Logged(s.With(store), ok, Write(t, expected + 1, ByUser))
    case Saved(t, user, expected, account, buttons, length) =>
      var (store, ok) := UpdateTask(s.Tables(), t, user, expected, account, buttons, length);
      Logged(s.With(store), ok, Write(t, expected + 1, ByUser))
    case BotSet(t, loaded, buttons, length) =>
      var (store, ok) := BotEdit(s.Tables(), t, loaded, buttons, length);
      Logged(s.With(store), ok, Write(t, loaded + 1, ByUser))
    case BatchEdited(ids, user, edit) =>
      var r := BatchUpdate(s.tasks, ids, user, edit);
      if r.None? then s else s.(tasks := r.value, batched := s.batched + set t | t in ids)
    case Migrated(t, expected, verified) =>
      var (store, ok) := MigrateMedia(s.Tables(), t, expected, verified);
      Logged(s.With(store), ok, Write(t, expected + 1, ByUser))
    case TaskDeleted(t) => s.With(DeleteTask(s.Tables(), t))
    case AccountDeleted(account) => s.With(DeleteAccount(s.Tables(), account))
  }

  function Run(s: State, steps: seq<Step>): State
    decreases |steps|
  {
    if steps == [] then s else Run(Next(s, steps[0]), steps[1..])
  }

  // ---------------------------------------------------------------- the invariant

  ghost predicate OneActive(cs: Captures) {
    forall a, b | a in cs && b in cs && cs[a].Active() && cs[b].Active() && cs[a].taskId == cs[b].taskId :: a == b
  }

  /** A capture with a worker in flight is not open for another claim, and has no second worker. */
  ghost predicate WorkersFit(cs: Captures, ws: map<Id, Worker>) {
    && (forall w | w in ws && ws[w].captureId in cs ::
          cs[ws[w].captureId].state != Waiting && (ws[w].phase.Rejected? ==> !cs[ws[w].captureId].Active()))
    && (forall v, w | v in ws && w in ws && ws[v].captureId == ws[w].captureId :: v == w)
  }

  ghost predicate WorkersKnown(ws: map<Id, Worker>, births: map<Id, Birth>) {
    forall w | w in ws :: ws[w].captureId in births
  }

  ghost predicate Written(log: seq<Write>, t: Id, r: nat) {
    exists i :: 0 <= i < |log| && log[i].taskId == t && log[i].revision == r
  }

  ghost predicate LogOrdered(log: seq<Write>) {
    forall i, j | 0 <= i < j < |log| && log[i].taskId == log[j].taskId :: log[i].revision < log[j].revision
  }

  ghost predicate LogFits(tasks: map<Id, Task>, known: set<Id>, log: seq<Write>) {
    && tasks.Keys <= known
    && LogOrdered(log)
    && (forall i | 0 <= i < |log| ::
          log[i].taskId in known && log[i].revision >= 2 && (log[i].taskId in tasks ==> log[i].revision <= tasks[log[i].taskId].revision))
    && (forall t, r | t in tasks && 2 <= r <= tasks[t].revision :: Written(log, t, r))
  }

  /** The log had length `since` when the task was at revision `expected`. */
  ghost predicate BirthFits(log: seq<Write>, b: Birth) {
    && b.since <= |log|
    && (forall i | 0 <= i < |log| && log[i].taskId == b.taskId :: i < b.since <==> log[i].revision <= b.expected)
  }

  ghost predicate BirthsFit(tasks: map<Id, Task>, known: set<Id>, log: seq<Write>, births: map<Id, Birth>) {
    forall c | c in births ::
      && births[c].taskId in known && BirthFits(log, births[c])
      && (births[c].taskId in tasks ==> births[c].expected <= tasks[births[c].taskId].revision)
  }

  ghost predicate RowsFit(cs: Captures, births: map<Id, Birth>) {
    forall c | c in cs ::
      c in births && cs[c].taskId == births[c].taskId && cs[c].expectedRevision == births[c].expected
  }

  ghost predicate WritersFit(cs: Captures, log: seq<Write>, births: map<Id, Birth>) {
    && (forall i | 0 <= i < |log| && log[i].writer.ByCapture? ::
          var c := log[i].writer.captureId;
          && c in births && births[c].taskId == log[i].taskId && births[c].expected + 1 == log[i].revision
          && (c in cs ==> !cs[c].Active()))
    && (forall c | c in cs && cs[c].state == Completed :: Write(cs[c].taskId, cs[c].expectedRevision + 1, ByCapture(c)) in log)
  }

  ghost predicate MediaFits(tasks: map<Id, Task>, batched: set<Id>) {
    forall t | t in tasks && t !in batched && tasks[t].media.Some? :: tasks[t].media.value.accountId == tasks[t].accountId
  }

  /** What every step of every run keeps. */
  ghost predicate Core(s: State) {
    && OneActive(s.captures) && WorkersFit(s.captures, s.workers) && WorkersKnown(s.workers, s.births)
    && RowsFit(s.captures, s.births) && WritersFit(s.captures, s.log, s.births) && MediaFits(s.tasks, s.batched)
  }

  /** The revisions of each task are numbered through by the log, and the births lie where their revisions do. */
  ghost predicate Revs(s: State) {
    && LogFits(s.tasks, s.known, s.log) && BirthsFit(s.tasks, s.known, s.log, s.births)
    && forall t | t in s.tasks :: s.tasks[t].revision >= 1
  }

  // ---------------------------------------------------------------- what steps do to the captures

  /** Captures only leave the active states; `but` may have become completed. */
  ghost predicate Quiet(cs: Captures, cs': Captures, but: Option<Id>) {
    && cs.Keys == cs'.Keys
    && forall c | c in cs ::
         && cs'[c].taskId == cs[c].taskId && cs'[c].expectedRevision == cs[c].expectedRevision
         && (cs'[c].Active() ==> cs[c].Active())
         && (cs'[c].state == Waiting ==> cs[c].state == Waiting)
         && (cs'[c].state == Completed && but != Some(c) ==> cs[c].state == Completed)
  }

  lemma QuietKeeps(s: State, cs': Captures)
    requires Core(s) && Quiet(s.captures, cs', None)
    ensures Core(s.(captures := cs'))
  {
    hide MediaFits;
  }

  /** One capture row changed quietly. */
  lemma QuietRow(s: State, c: Id, capture: Capture)
    requires Core(s) && c in s.captures
    requires capture.taskId == s.captures[c].taskId && capture.expectedRevision == s.captures[c].expectedRevision
    requires capture.Active() ==> s.captures[c].Active()
    requires capture.state == Waiting ==> s.captures[c].state == Waiting
    requires capture.state == Completed ==> s.captures[c].state == Completed
    ensures Quiet(s.captures, s.captures[c := capture], None) && Core(s.(captures := s.captures[c := capture]))
  {
    hide Core;
    QuietKeeps(s, s.captures[c := capture]);
  }

  lemma WorkersKeep(s: State, ws: map<Id, Worker>)
    requires Core(s) && WorkersFit(s.captures, ws) && WorkersKnown(ws, s.births)
    ensures Core(s.(workers := ws))
  {
    hide MediaFits, WorkersFit, OneActive, RowsFit, WritersFit;
  }

  lemma WorkerGone(s: State, w: Id)
    requires Core(s)
    ensures Core(s.(workers := s.workers - {w}))
  {
    hide OneActive, MediaFits, RowsFit, WritersFit;
    WorkersKeep(s, s.workers - {w});
  }

  /** A write of a task, by the user or by a capture at the revision after the one it was opened at. */
  lemma WriteKeeps(s: State, t: Id, task: Task, cs': Captures, write: Write)
    requires Core(s) && t in s.tasks
    requires t !in s.batched && task.media.Some? ==> task.media.value.accountId == task.accountId
    requires Quiet(s.captures, cs', if write.writer.ByCapture? then Some(write.writer.captureId) else None)
    requires write.writer.ByCapture? ==>
               && write.writer.captureId in s.captures && !cs'[write.writer.captureId].Active()
               && write == Write(s.captures[write.writer.captureId].taskId, s.captures[write.writer.captureId].expectedRevision + 1, write.writer)
    ensures Core(s.(tasks := s.tasks[t := task], captures := cs', log := s.log + [write]))
  {
    var log := s.log + [write];
    assert WritersFit(cs', log, s.births) by {
      hide MediaFits, OneActive, WorkersFit;
      assert log[|s.log|] == write;
    }
    hide WritersFit;
  }

  // ---------------------------------------------------------------- every step keeps the core

  lemma OpenKeeps(s: State, c: Id, t: Id, user: int, expected: nat, actor: Option<int>, env: Env, now: int, expiresAt: int)
    requires Core(s)
    ensures Core(Next(s, Open(c, t, user, expected, actor, env, now, expiresAt)))
  {
    var (store, error) := Create(s.Tables(), c, t, user, expected, actor, env, now, expiresAt);
    if c in s.births || error.Some? {
      return;
    }
    hide Core, CaptureTargetError;
    var retired := RetireAll(s.captures, t, now);
    QuietKeeps(s, retired);
    var capture := NewCapture(s.tasks[t], t, actor, expiresAt);
    CaptureInserted(s.(captures := retired), c, capture);
  }

  lemma CaptureInserted(s: State, c: Id, capture: Capture)
    requires Core(s) && c !in s.births && capture.state == Waiting
    requires forall d | d in s.captures && s.captures[d].taskId == capture.taskId :: !s.captures[d].Active()
    ensures Core(s.(captures := s.captures[c := capture],
                    births := s.births[c := Birth(capture.taskId, capture.expectedRevision, |s.log|)]))
  {
    assert c !in s.captures;
    hide MediaFits;
  }

  lemma ActivatedKeeps(s: State, c: Id, sender: int, env: Env, prompt: int, now: int)
    requires Core(s)
    ensures Core(Next(s, Activated(c, sender, env, prompt, now)))
  {
    hide Core, ActivationContextError;
    var store := Activate(s.Tables(), c, sender, env, prompt, now).0;
    if c in s.captures {
      QuietRow(s, c, store.captures[c]);
      assert store.captures == s.captures[c := store.captures[c]];
    }
  }

  lemma RepliedKeeps(s: State, w: Id, c: Id, sender: int, prompt: int, source: int, env: Env, now: int)
    requires Core(s)
    ensures Core(Next(s, Replied(w, c, sender, prompt, source, env, now)))
  {
    hide ActivationContextError, WritersFit, MediaFits, OneActive;
    var (store, r) := Claim(s.Tables(), c, sender, prompt, source, env, now);
    if w in s.workers || c !in s.captures || store.captures == s.captures {
      return;
    }
    QuietRow(s, c, store.captures[c]);
    assert store.captures == s.captures[c := store.captures[c]];
    if r.Claimed? {
      WorkersKeep(s.(captures := store.captures), s.workers[w := Worker(c, Copying)]);
    }
  }

  /** A claim given up: the capture waits again, with no worker left on it. */
  lemma ReleasedRow(s: State, c: Id, capture: Capture)
    requires Core(s) && c in s.captures && s.captures[c].Active()
    requires capture.taskId == s.captures[c].taskId && capture.expectedRevision == s.captures[c].expectedRevision
    requires capture.state == Waiting && forall w | w in s.workers :: s.workers[w].captureId != c
    ensures Core(s.(captures := s.captures[c := capture]))
  {
    hide MediaFits;
  }

  lemma {:induction false} CopyBrokeKeeps(s: State, w: Id, code: Code)
    requires Core(s)
    ensures Core(Next(s, CopyBroke(w, code)))
  {
    if w !in s.workers || s.workers[w].phase != Copying {
      return;
    }
    var c := s.workers[w].captureId;
    assert forall v | v in s.workers && v != w :: s.workers[v].captureId != c;
    hide Core, WritersFit, MediaFits, OneActive, WorkersFit, WorkersKnown, RowsFit;
    WorkerGone(s, w);
    var idle := s.(workers := s.workers - {w});
    if c !in s.captures || s.captures[c].state != Processing {
      assert Next(s, CopyBroke(w, code)) == idle;
      return;
    }
    var capture := Release(s.Tables(), c, code).captures[c];
    ReleasedRow(idle, c, capture);
    assert Next(s, CopyBroke(w, code)) == idle.(captures := s.captures[c := capture]);
  }

  /** A rejected completion leaves the capture inactive. */
  lemma RejectedIsInactive(store: Store, c: Id, saved: int, now: int)
    requires c in store.captures && store.captures[c].state != Waiting
    ensures var (store', error) := Complete(store, c, saved, now);
            error.Some? ==> c in store'.captures && !store'.captures[c].Active()
                            && store' == SetCapture(store, c, store'.captures[c])
                            && store'.captures[c].taskId == store.captures[c].taskId
                            && store'.captures[c].expectedRevision == store.captures[c].expectedRevision
                            && (store'.captures[c].state == Completed ==> store.captures[c].state == Completed)
  {
  }

  lemma CopyDoneKeeps(s: State, w: Id, saved: int, now: int)
    requires Core(s)
    ensures Core(Next(s, CopyDone(w, saved, now)))
  {
    if w !in s.workers || s.workers[w].phase != Copying {
      return;
    }
    var c := s.workers[w].captureId;
    var (store, error) := Complete(s.Tables(), c, saved, now);
    if error.None? {
      CopySucceeds(s, w, c, saved, now);
      return;
    }
    if c in s.captures {
      RejectedIsInactive(s.Tables(), c, saved, now);
      hide Complete, WritersFit, MediaFits, OneActive;
      QuietRow(s, c, store.captures[c]);
    }
    hide Complete, WritersFit, MediaFits, OneActive;
    WorkersKeep(s.With(store), s.workers[w := Worker(c, Rejected(error.value))]);
  }

  lemma CopySucceeds(s: State, w: Id, c: Id, saved: int, now: int)
    requires Core(s) && w in s.workers && s.workers[w] == Worker(c, Copying)
    requires Complete(s.Tables(), c, saved, now).1.None?
    ensures Core(Next(s, CopyDone(w, saved, now)))
  {
    hide Core;
    var (store, _) := Complete(s.Tables(), c, saved, now);
    var t := s.captures[c].taskId;
    var write := Write(t, s.captures[c].expectedRevision + 1, ByCapture(c));
    WriteKeeps(s, t, store.tasks[t], store.captures, write);
    WorkerGone(s.(tasks := store.tasks, captures := store.captures, log := s.log + [write]), w);
  }

  /** By the time a rejection is reported the capture is no longer processing: the report changes nothing. */
  lemma ReportChangesNothing(s: State, w: Id, now: int)
    requires Core(s) && w in s.workers && s.workers[w].phase.Rejected?
    ensures Next(s, RejectionReported(w, now)) == s.(workers := s.workers - {w})
  {
    hide WritersFit, MediaFits, OneActive;
  }

  lemma CancelIsQuiet(cs: Captures, t: Id, code: Code)
    ensures Quiet(cs, CancelActive(cs, t, code), None) && Quiet(cs, cs, None)
  {
  }

  predicate WritesTask(step: Step) {
    step.Cleared? || step.Saved? || step.BotSet? || step.Migrated?
  }

  lemma {:induction false} TaskWriteKeeps(s: State, step: Step)
    requires Core(s) && WritesTask(step)
    ensures Core(Next(s, step))
  {
    assert MediaFits(s.tasks, s.batched);
    hide Core, Quiet;
    var t := step.task;
    var s' := Next(s, step);
    if s'.log == s.log {
      assert s' == s;
      return;
    }
    CancelIsQuiet(s.captures, t, if step.Cleared? then SourceCleared else AccountChanged);
    WriteKeeps(s, t, s'.tasks[t], s'.captures, s'.log[|s.log|]);
  }

  /** Rows removed, none changed. */
  ghost predicate Submap<V(!new)>(m: map<Id, V>, m': map<Id, V>) {
    forall k | k in m' :: k in m && m'[k] == m[k]
  }

  lemma FewerRowsKeep(s: State, tasks: map<Id, Task>, cs: Captures)
    requires Core(s) && Submap(s.tasks, tasks) && Submap(s.captures, cs)
    ensures Core(s.(tasks := tasks, captures := cs))
  {
    assert WritersFit(cs, s.log, s.births) by {
      hide WorkersFit, OneActive;
    }
    hide WritersFit;
    assert WorkersFit(cs, s.workers);
    assert OneActive(cs) by {
      hide WorkersFit;
    }
    hide OneActive, WorkersFit;
  }

  lemma RowsGoneKeeps(s: State, step: Step)
    requires Core(s) && (step.TaskDeleted? || step.AccountDeleted?)
    ensures Core(Next(s, step)) && Submap(s.tasks, Next(s, step).tasks)
  {
    hide Core;
    var s' := Next(s, step);
    FewerRowsKeep(s, s'.tasks, s'.captures);
  }

  lemma NewTaskKeeps(s: State, step: Step)
    requires Core(s) && step.NewTask?
    ensures Core(Next(s, step))
  {
    hide OneActive, WorkersFit, WorkersKnown, WritersFit, RowsFit;
  }

  lemma BatchEditedKeeps(s: State, ids: seq<Id>, user: int, edit: Edit)
    requires Core(s)
    ensures Core(Next(s, BatchEdited(ids, user, edit)))
  {
    hide OneActive, WorkersFit, WorkersKnown, WritersFit, RowsFit, Edited;
    if BatchUpdate(s.tasks, ids, user, edit).Some? {
      BatchEditsExactly(s.tasks, ids, user, edit);
    }
  }

  lemma PolledKeeps(s: State, c: Id, t: Id, user: int, now: int)
    requires Core(s)
    ensures Core(Next(s, Polled(c, t, user, now)))
  {
    hide Core;
    var store := Poll(s.Tables(), c, t, user, now);
    if store != s.Tables() {
      QuietRow(s, c, store.captures[c]);
    }
  }

  lemma RejectionReportedKeeps(s: State, w: Id, now: int)
    requires Core(s)
    ensures Core(Next(s, RejectionReported(w, now)))
  {
    hide Core;
    if w in s.workers && s.workers[w].phase.Rejected? {
      ReportChangesNothing(s, w, now);
      WorkerGone(s, w);
    }
  }

  lemma WorkerLostKeeps(s: State, w: Id)
    requires Core(s)
    ensures Core(Next(s, WorkerLost(w)))
  {
    hide Core;
    WorkerGone(s, w);
  }

  lemma NextKeeps(s: State, step: Step)
    requires Core(s)
    ensures Core(Next(s, step))
  {
    hide *;
    match step
    case NewTask(_, _, _, _, _, _) => NewTaskKeeps(s, step);
    case Open(c, t, user, expected, actor, env, now, expiresAt) => OpenKeeps(s, c, t, user, expected, actor, env, now, expiresAt);
    case Activated(c, sender, env, prompt, now) => ActivatedKeeps(s, c, sender, env, prompt, now);
    case Replied(w, c, sender, prompt, source, env, now) => RepliedKeeps(s, w, c, sender, prompt, source, env, now);
    case CopyBroke(w, code) => CopyBrokeKeeps(s, w, code);
    case CopyDone(w, saved, now) => CopyDoneKeeps(s, w, saved, now);
    case RejectionReported(w, now) => RejectionReportedKeeps(s, w, now);
    case WorkerLost(w) => WorkerLostKeeps(s, w);
    case Polled(c, t, user, now) => PolledKeeps(s, c, t, user, now);
    case TaskDeleted(t) => RowsGoneKeeps(s, step);
    case AccountDeleted(account) => RowsGoneKeeps(s, step);
    case BatchEdited(ids, user, edit) => BatchEditedKeeps(s, ids, user, edit);
    case Cleared(_, _, _) => WriterKeeps(s, step);
    case Saved(_, _, _, _, _, _) => WriterKeeps(s, step);
    case BotSet(_, _, _, _) => WriterKeeps(s, step);
    case Migrated(_, _, _) => WriterKeeps(s, step);
  }

  lemma WriterKeeps(s: State, step: Step)
    requires Core(s) && (step.Cleared? || step.Saved? || step.BotSet? || step.Migrated?)
    ensures Core(Next(s, step))
  {
    TaskWriteKeeps(s, step);
  }

  lemma {:induction false} RunKeeps(s: State, steps: seq<Step>)
    requires Core(s)
    ensures Core(Run(s, steps))
    decreases |steps|
  {
    hide Core, Next;
    if steps != [] {
      NextKeeps(s, steps[0]);
      RunKeeps(Next(s, steps[0]), steps[1..]);
    }
  }

  lemma ReachableCore(steps: seq<Step>)
    ensures Core(Run(INITIAL, steps))
  {
    assert Core(INITIAL);
    RunKeeps(INITIAL, steps);
  }

  // ---------------------------------------------------------------- the revisions

  /** A step after which the revisions still number the writes: a bot edit commits what it loaded only if no one
      has written since, and a batch edit sets no task's revision to another one. */
  ghost predicate Steady(s: State, step: Step) {
    && (step.BotSet? && step.task in s.tasks ==> s.tasks[step.task].revision == step.loaded)
    && (step.BatchEdited? && BatchUpdate(s.tasks, step.ids, step.user, step.edit).Some? && step.edit.revision.Some? ==>
          forall t | Touched(s.tasks, step.ids, step.user, t) :: s.tasks[t].revision == step.edit.revision.value)
  }

  lemma LogGrows(s: State, t: Id, task: Task, writer: Writer)
    requires LogFits(s.tasks, s.known, s.log) && t in s.tasks && task.revision == s.tasks[t].revision + 1 >= 2
    ensures LogFits(s.tasks[t := task], s.known, s.log + [Write(t, task.revision, writer)])
  {
    var log, tasks := s.log + [Write(t, task.revision, writer)], s.tasks[t := task];
    forall u, r | u in tasks && 2 <= r <= tasks[u].revision ensures Written(log, u, r) {
      if u == t && r == task.revision {
        assert log[|s.log|].taskId == u;
      } else {
        assert Written(s.log, u, r);
        var i :| 0 <= i < |s.log| && s.log[i].taskId == u && s.log[i].revision == r;
        assert log[i] == s.log[i];
      }
    }
  }

  lemma BirthsGrow(s: State, t: Id, task: Task, writer: Writer)
    requires BirthsFit(s.tasks, s.known, s.log, s.births) && t in s.tasks && task.revision == s.tasks[t].revision + 1
    ensures BirthsFit(s.tasks[t := task], s.known, s.log + [Write(t, task.revision, writer)], s.births)
  {
    var log := s.log + [Write(t, task.revision, writer)];
    assert forall i | 0 <= i < |s.log| :: log[i] == s.log[i];
  }

  /** A write of the next revision. */
  lemma RevisionWritten(s: State, s': State, t: Id, writer: Writer)
    requires Revs(s) && t in s.tasks && t in s'.tasks && s'.tasks == s.tasks[t := s'.tasks[t]] && s'.tasks[t].revision == s.tasks[t].revision + 1
    requires s'.log == s.log + [Write(t, s'.tasks[t].revision, writer)] && s'.known == s.known && s'.births == s.births
    ensures Revs(s')
  {
    LogGrows(s, t, s'.tasks[t], writer);
    BirthsGrow(s, t, s'.tasks[t], writer);
    hide LogFits, BirthsFit;
  }

  /** Tasks gone, or edited at their revisions. */
  lemma RevisionsStay(s: State, s': State)
    requires Revs(s) && s'.log == s.log && s'.known == s.known && s'.births == s.births
    requires forall t | t in s'.tasks :: t in s.tasks && s'.tasks[t].revision == s.tasks[t].revision
    ensures Revs(s')
  {
    assert LogFits(s'.tasks, s.known, s.log) by {
      hide BirthsFit;
    }
    hide LogFits;
  }

  lemma OpenRevisions(s: State, step: Step)
    requires Revs(s) && step.Open?
    ensures Revs(Next(s, step))
  {
    var s' := Next(s, step);
    OpenChanges(s, step);
    hide Next, Create;
    assert BirthsFit(s.tasks, s.known, s.log, s'.births) by {
      hide LogFits;
    }
    hide BirthsFit;
  }

  lemma OpenChanges(s: State, step: Step)
    requires step.Open?
    ensures var s' := Next(s, step);
            && s'.tasks == s.tasks && s'.log == s.log && s'.known == s.known
            && (s'.births == s.births
                || (s'.births == s.births[step.capture := Birth(step.task, step.expected, |s.log|)]
                    && step.task in s.tasks && s.tasks[step.task].revision == step.expected))
  {
    hide CaptureTargetError, RetireAll;
  }

  lemma NewTaskRevisions(s: State, step: Step)
    requires Revs(s) && step.NewTask?
    ensures Revs(Next(s, step))
  {
  }

  lemma CopyRevisions(s: State, step: Step)
    requires Revs(s) && step.CopyDone?
    ensures Revs(Next(s, step))
  {
    var s' := Next(s, step);
    hide Revs;
    if s'.log == s.log {
      assert s'.tasks == s.tasks;
      RevisionsStay(s, s');
    } else {
      RevisionWritten(s, s', s'.log[|s.log|].taskId, s'.log[|s.log|].writer);
    }
  }

  lemma TaskRevisions(s: State, step: Step)
    requires Revs(s) && WritesTask(step) && Steady(s, step)
    ensures Revs(Next(s, step))
  {
    var s' := Next(s, step);
    hide Revs;
    if s'.log == s.log {
      assert s' == s;
    } else {
      RevisionWritten(s, s', step.task, ByUser);
    }
  }

  lemma QuietRevisions(s: State, step: Step)
    requires Revs(s)
    requires step.Activated? || step.Replied? || step.CopyBroke? || step.RejectionReported? || step.WorkerLost? || step.Polled?
             || step.TaskDeleted? || step.AccountDeleted?
    ensures Revs(Next(s, step))
  {
    hide Revs, ActivationContextError;
    RevisionsStay(s, Next(s, step));
  }

  lemma BatchRevisions(s: State, step: Step)
    requires Revs(s) && step.BatchEdited?
    ensures Revs(Next(s, step)) <==> Steady(s, step)
  {
    var s' := Next(s, step);
    var r := BatchUpdate(s.tasks, step.ids, step.user, step.edit);
    if r.None? {
      return;
    }
    BatchEditsExactly(s.tasks, step.ids, step.user, step.edit);
    if Steady(s, step) {
      hide Revs;
      RevisionsStay(s, s');
      return;
    }
    var t :| Touched(s.tasks, step.ids, step.user, t) && s.tasks[t].revision != step.edit.revision.value;
    RevisionMoved(s, s', t);
  }

  /** A revision that moves without its write is not numbered any more. */
  lemma RevisionMoved(s: State, s': State, t: Id)
    requires Revs(s) && s'.log == s.log && t in s.tasks && t in s'.tasks && s'.tasks[t].revision != s.tasks[t].revision
    ensures !Revs(s')
  {
    var old_, new_ := s.tasks[t].revision, s'.tasks[t].revision;
    if new_ < old_ && old_ >= 2 {
      assert Written(s.log, t, old_);
    }
    if old_ < new_ {
      assert !Written(s.log, t, new_);
    }
  }

  /** A bot edit of a row that has moved on since it was loaded gives a revision a second writer. */
  lemma StaleBotEdit(s: State, step: Step)
    requires Revs(s) && step.BotSet? && !Steady(s, step)
    ensures !Revs(Next(s, step))
  {
    var s', r, n := Next(s, step), step.loaded + 1, |s.log|;
    var current := s.tasks[step.task].revision;
    assert s'.log[n] == Write(step.task, r, ByUser);
    if r < 2 {
      assert !LogFits(s'.tasks, s'.known, s'.log);
    } else if r <= current {
      assert Written(s.log, step.task, current);
      var i :| 0 <= i < n && s.log[i].taskId == step.task && s.log[i].revision == current;
      assert s'.log[i] == s.log[i];
      assert !LogOrdered(s'.log);
    } else {
      assert r > current + 1;
      assert !Written(s'.log, step.task, current + 1);
    }
  }

  /** A step keeps the revisions numbering the writes exactly if it is steady. */
  lemma RevisionsExactly(s: State, step: Step)
    requires Revs(s)
    ensures Revs(Next(s, step)) <==> Steady(s, step)
  {
    SteadyOthers(s, step);
    hide Revs, Next, Steady;
    if step.Open? {
      OpenRevisions(s, step);
    } else if step.NewTask? {
      NewTaskRevisions(s, step);
    } else if step.CopyDone? {
      CopyRevisions(s, step);
    } else if step.BatchEdited? {
      BatchRevisions(s, step);
    } else if step.BotSet? {
      BotRevisions(s, step);
    } else if WritesTask(step) {
      TaskRevisions(s, step);
    } else {
      QuietRevisions(s, step);
    }
  }

  lemma SteadyOthers(s: State, step: Step)
    ensures !step.BotSet? && !step.BatchEdited? ==> Steady(s, step)
  {
  }

  lemma BotRevisions(s: State, step: Step)
    requires Revs(s) && step.BotSet?
    ensures Revs(Next(s, step)) <==> Steady(s, step)
  {
    if !Steady(s, step) {
      StaleBotEdit(s, step);
      return;
    }
    TaskRevisions(s, step);
  }

  ghost predicate SteadyRun(s: State, steps: seq<Step>)
    decreases |steps|
  {
    steps != [] ==> Steady(s, steps[0]) && SteadyRun(Next(s, steps[0]), steps[1..])
  }

  lemma {:induction false} RunRevisions(s: State, steps: seq<Step>)
    requires Revs(s) && SteadyRun(s, steps)
    ensures Revs(Run(s, steps))
    decreases |steps|
  {
    hide Revs, Next, Steady;
    if steps != [] {
      RevisionsExactly(s, steps[0]);
      RunRevisions(Next(s, steps[0]), steps[1..]);
    }
  }

  lemma ReachableRevisions(steps: seq<Step>)
    requires SteadyRun(INITIAL, steps)
    ensures Revs(Run(INITIAL, steps))
  {
    assert Revs(INITIAL);
    RunRevisions(INITIAL, steps);
  }

  // ---------------------------------------------------------------- what holds in every reachable state

  /** A task has at most one capture waiting or processing; a capture with a worker in flight has only
      that one and cannot be claimed again. */
  lemma AtMostOneActive(steps: seq<Step>)
    ensures var s := Run(INITIAL, steps);
            && (forall a, b | a in s.captures && b in s.captures && s.captures[a].Active() && s.captures[b].Active()
                              && s.captures[a].taskId == s.captures[b].taskId :: a == b)
            && (forall v, w | v in s.workers && w in s.workers && s.workers[v].captureId == s.workers[w].captureId :: v == w)
            && (forall w | w in s.workers && s.workers[w].captureId in s.captures :: s.captures[s.workers[w].captureId].state != Waiting)
  {
    ReachableCore(steps);
    hide Run;
  }

  /** In a steady run every revision of a task above the first has exactly one writer. */
  lemma OneWriterPerRevision(steps: seq<Step>, t: Id, r: nat)
    requires SteadyRun(INITIAL, steps)
    requires t in Run(INITIAL, steps).tasks && 2 <= r <= Run(INITIAL, steps).tasks[t].revision
    ensures var log := Run(INITIAL, steps).log;
            exists i :: && 0 <= i < |log| && log[i].taskId == t && log[i].revision == r
                        && forall j | 0 <= j < |log| && log[j].taskId == t && log[j].revision == r :: j == i
  {
    ReachableRevisions(steps);
    hide Run;
    var s := Run(INITIAL, steps);
    var log := s.log;
    assert LogFits(s.tasks, s.known, log);
    hide Revs;
    assert Written(log, t, r);
    var i :| 0 <= i < |log| && log[i].taskId == t && log[i].revision == r;
    forall j | 0 <= j < |log| && log[j].taskId == t && log[j].revision == r ensures j == i {
      assert LogOrdered(log);
    }
  }

  /** In a steady run a capture's write is the first write of a revision of its task after the capture was
      opened, it produces the revision after the one the capture was opened at, and it is the capture's only
      write: whatever ran while the copy was in flight, a task that was saved or cleared is not written. */
  lemma CaptureWritesFirst(steps: seq<Step>, i: nat)
    requires SteadyRun(INITIAL, steps)
    requires i < |Run(INITIAL, steps).log| && Run(INITIAL, steps).log[i].writer.ByCapture?
    ensures var s := Run(INITIAL, steps);
            var c := s.log[i].writer.captureId;
            && c in s.births && s.births[c].since <= i
            && s.log[i].taskId == s.births[c].taskId && s.log[i].revision == s.births[c].expected + 1
            && (forall j | s.births[c].since <= j < i :: s.log[j].taskId != s.births[c].taskId)
            && (forall j | 0 <= j < |s.log| && s.log[j].writer == ByCapture(c) :: j == i)
  {
    ReachableRevisions(steps);
    ReachableCore(steps);
    hide Run;
    var s := Run(INITIAL, steps);
    var c := s.log[i].writer.captureId;
    assert WritersFit(s.captures, s.log, s.births) && BirthFits(s.log, s.births[c]) && LogOrdered(s.log);
    hide Core, Revs, LogFits, BirthsFit;
    forall j | 0 <= j < |s.log| && s.log[j].writer == ByCapture(c) ensures j == i {
      assert s.log[j].writer.ByCapture?;
    }
  }

  /** A capture shown as completed has written its task, and the media of a task that no batch edit has touched
      belongs to its account. */
  lemma CompletedHasWritten(steps: seq<Step>)
    ensures var s := Run(INITIAL, steps);
            && (forall c | c in s.captures && s.captures[c].state == Completed ::
                  Write(s.captures[c].taskId, s.captures[c].expectedRevision + 1, ByCapture(c)) in s.log)
            && (forall t | t in s.tasks && t !in s.batched && s.tasks[t].media.Some? :: s.tasks[t].media.value.accountId == s.tasks[t].accountId)
  {
    ReachableCore(steps);
    hide Run;
  }

  // ---------------------------------------------------------------- what a completion writes over

  /** A batch edit of the run goes through and edits the task, which is then not of version 2. */
  ghost predicate BatchTouches(s: State, steps: seq<Step>, t: Id)
    decreases |steps|
  {
    steps != [] &&
    (|| (steps[0].BatchEdited? && BatchUpdate(s.tasks, steps[0].ids, steps[0].user, steps[0].edit).Some?
         && Touched(s.tasks, steps[0].ids, steps[0].user, t))
     || BatchTouches(Next(s, steps[0]), steps[1..], t))
  }

  /** A task that is gone does not come back. */
  lemma {:induction false} GoneStaysGone(s: State, steps: seq<Step>, t: Id)
    requires t in s.known && t !in s.tasks
    ensures t !in Run(s, steps).tasks
    decreases |steps|
  {
    if steps != [] {
      GoneNext(s, steps[0], t);
      hide Next;
      GoneStaysGone(Next(s, steps[0]), steps[1..], t);
    }
  }

  lemma GoneNext(s: State, step: Step, t: Id)
    requires t in s.known && t !in s.tasks
    ensures t in Next(s, step).known && t !in Next(s, step).tasks
  {
    if step.BatchEdited? && BatchUpdate(s.tasks, step.ids, step.user, step.edit).Some? {
      BatchEditsExactly(s.tasks, step.ids, step.user, step.edit);
    }
    hide BatchUpdate, CreateError, ActivationContextError;
  }

  /** A steady step leaves a task as it is, or moves its revision on, or is a batch edit of it. */
  lemma TaskChange(s: State, step: Step, t: Id)
    requires Revs(s) && Steady(s, step) && t in s.tasks && t in Next(s, step).tasks
    ensures var task := Next(s, step).tasks[t];
            || task == s.tasks[t] || task.revision == s.tasks[t].revision + 1
            || (step.BatchEdited? && BatchUpdate(s.tasks, step.ids, step.user, step.edit).Some?
                && Touched(s.tasks, step.ids, step.user, t) && task.revision == s.tasks[t].revision)
  {
    assert t in s.known;
    hide Revs, Next, Steady;
    if step.BatchEdited? {
      BatchChange(s, step, t);
    } else if WritesTask(step) {
      WriteChange(s, step, t);
    } else if step.NewTask? || step.Open? || step.TaskDeleted? || step.AccountDeleted? {
      RowChange(s, step, t);
    } else {
      CaptureChange(s, step, t);
    }
  }

  lemma WriteChange(s: State, step: Step, t: Id)
    requires WritesTask(step) && Steady(s, step) && t in s.tasks && t in Next(s, step).tasks
    ensures Next(s, step).tasks[t] == s.tasks[t] || Next(s, step).tasks[t].revision == s.tasks[t].revision + 1
  {
  }

  lemma RowChange(s: State, step: Step, t: Id)
    requires (step.NewTask? || step.Open? || step.TaskDeleted? || step.AccountDeleted?) && t in s.known
    requires t in s.tasks && t in Next(s, step).tasks
    ensures Next(s, step).tasks[t] == s.tasks[t]
  {
    hide CreateError;
  }

  lemma CaptureChange(s: State, step: Step, t: Id)
    requires !WritesTask(step) && !step.BatchEdited? && !step.NewTask? && !step.Open? && !step.TaskDeleted? && !step.AccountDeleted?
    requires t in s.tasks && t in Next(s, step).tasks
    ensures Next(s, step).tasks[t] == s.tasks[t] || Next(s, step).tasks[t].revision == s.tasks[t].revision + 1
  {
    hide ActivationContextError;
  }

  lemma BatchChange(s: State, step: Step, t: Id)
    requires Steady(s, step) && t in s.tasks && step.BatchEdited?
    ensures t in Next(s, step).tasks && Next(s, step).tasks[t].revision == s.tasks[t].revision
    ensures Next(s, step).tasks[t] == s.tasks[t]
            || (BatchUpdate(s.tasks, step.ids, step.user, step.edit).Some? && Touched(s.tasks, step.ids, step.user, t))
  {
    if BatchUpdate(s.tasks, step.ids, step.user, step.edit).Some? {
      BatchEditsExactly(s.tasks, step.ids, step.user, step.edit);
      hide BatchUpdate;
      if Touched(s.tasks, step.ids, step.user, t) {
        assert Next(s, step).tasks[t] == Edited(s.tasks[t], step.edit);
      }
    }
  }

  /** Over a steady run a task's revision never falls, and where it has not moved the task is as it was, unless a
      batch edit has touched it. */
  lemma {:induction false} SameRevisionSameTask(s: State, steps: seq<Step>, t: Id)
    requires Revs(s) && SteadyRun(s, steps) && t in s.tasks && t in Run(s, steps).tasks
    ensures Run(s, steps).tasks[t].revision >= s.tasks[t].revision
    ensures Run(s, steps).tasks[t].revision == s.tasks[t].revision && !BatchTouches(s, steps, t) ==> Run(s, steps).tasks[t] == s.tasks[t]
    decreases |steps|
  {
    if steps == [] {
      return;
    }
    var s' := Next(s, steps[0]);
    RevisionsExactly(s, steps[0]);
    assert t in s.known && t in s'.known by {
      assert LogFits(s.tasks, s.known, s.log);
      assert s.known <= s'.known;
    }
    hide Revs, Steady, BatchUpdate, Touched;
    if t !in s'.tasks {
      GoneStaysGone(s', steps[1..], t);
    } else {
      TaskChange(s, steps[0], t);
      SameRevisionSameTask(s', steps[1..], t);
    }
  }

  /** What a completion writes over: the task is as it was when the capture was opened, whatever ran since,
      unless a batch edit of the task - then not of version 2 - came in between. */
  lemma OverwritesOnlyBatchEdits(before: seq<Step>, open: Step, between: seq<Step>, w: Id, saved: int, now: int)
    requires open.Open? && open.capture !in Run(INITIAL, before).births
    requires var s := Next(Run(INITIAL, before), open);
             SteadyRun(INITIAL, before) && SteadyRun(s, between) && open.capture in s.births
    requires var s' := Run(Next(Run(INITIAL, before), open), between);
             && w in s'.workers && s'.workers[w].captureId == open.capture
             && Complete(s'.Tables(), open.capture, saved, now).1.None?
    ensures var s := Next(Run(INITIAL, before), open);
            var s' := Run(s, between);
            && open.task in s.tasks && open.task in s'.tasks
            && (s'.tasks[open.task] == s.tasks[open.task] || BatchTouches(s, between, open.task))
  {
    var s0 := Run(INITIAL, before);
    var s := Next(s0, open);
    var s' := Run(s, between);
    var c, t := open.capture, open.task;
    ReachableRevisions(before);
    ReachableCore(before);
    assert s.births[c] == Birth(t, open.expected, |s0.log|) && t in s.tasks && s.tasks[t].revision == open.expected;
    OpenRevisions(s0, open);
    NextKeeps(s0, open);
    RunKeeps(s, between);
    BirthsStay(s, between, c);
    assert RowsFit(s'.captures, s'.births);
    hide Run, Next, Revs, Core;
    assert s'.captures[c].taskId == t && s'.captures[c].expectedRevision == open.expected;
    assert t in s'.tasks && s'.tasks[t].revision == open.expected;
    hide Complete;
    SameRevisionSameTask(s, between, t);
  }

  lemma {:induction false} BirthsStay(s: State, steps: seq<Step>, c: Id)
    requires c in s.births
    ensures c in Run(s, steps).births && Run(s, steps).births[c] == s.births[c]
    decreases |steps|
  {
    if steps != [] {
      assert c in Next(s, steps[0]).births && Next(s, steps[0]).births[c] == s.births[c] by {
        hide Create, Activate, Claim, Complete;
      }
      hide Next;
      BirthsStay(Next(s, steps[0]), steps[1..], c);
    }
  }

  // ---------------------------------------------------------------- a capture that ended stays ended

  predicate Ended(s: State, c: Id) {
    c in s.births && (c in s.captures ==> !s.captures[c].Active())
  }

  ghost predicate EndedAfter(s: State, s': State, c: Id) {
    && Ended(s', c) && s.log <= s'.log
    && forall i | |s.log| <= i < |s'.log| :: s'.log[i].writer != ByCapture(c)
  }

  lemma EndedOpen(s: State, step: Step, c: Id)
    requires Ended(s, c) && (step.Open? || step.NewTask? || step.TaskDeleted? || step.AccountDeleted?)
    ensures EndedAfter(s, Next(s, step), c)
  {
    hide CreateError, CaptureTargetError;
  }

  lemma EndedRow(s: State, step: Step, c: Id)
    requires Ended(s, c) && (step.Activated? || step.Replied? || step.Polled? || step.WorkerLost?)
    ensures EndedAfter(s, Next(s, step), c)
  {
    hide ActivationContextError;
  }

  lemma EndedCopy(s: State, step: Step, c: Id)
    requires Ended(s, c) && WorkersKnown(s.workers, s.births) && (step.CopyBroke? || step.CopyDone? || step.RejectionReported?)
    ensures EndedAfter(s, Next(s, step), c)
  {
  }

  lemma EndedWrite(s: State, step: Step, c: Id)
    requires Ended(s, c) && (WritesTask(step) || step.BatchEdited?)
    ensures EndedAfter(s, Next(s, step), c)
  {
  }

  lemma EndedNext(s: State, step: Step, c: Id)
    requires Core(s) && Ended(s, c)
    ensures EndedAfter(s, Next(s, step), c)
  {
    assert WorkersKnown(s.workers, s.births);
    hide Core, Next, EndedAfter, Ended;
    if step.Open? || step.NewTask? || step.TaskDeleted? || step.AccountDeleted? {
      EndedOpen(s, step, c);
    } else if step.Activated? || step.Replied? || step.Polled? || step.WorkerLost? {
      EndedRow(s, step, c);
    } else if step.CopyBroke? || step.CopyDone? || step.RejectionReported? {
      EndedCopy(s, step, c);
    } else {
      EndedWrite(s, step, c);
    }
  }

  /** A capture that has left waiting and processing never returns there and never writes again, even with
      its copy still in flight. */
  lemma {:induction false} EndedStaysEnded(s: State, steps: seq<Step>, c: Id)
    requires Core(s) && Ended(s, c)
    ensures Ended(Run(s, steps), c)
    ensures s.log <= Run(s, steps).log
    ensures forall i | |s.log| <= i < |Run(s, steps).log| :: Run(s, steps).log[i].writer != ByCapture(c)
    decreases |steps|
  {
    hide Core, Next;
    if steps != [] {
      EndedNext(s, steps[0], c);
      NextKeeps(s, steps[0]);
      EndedStaysEnded(Next(s, steps[0]), steps[1..], c);
    }
  }

  /** The one change left to an ended capture's state: opening its link again after the deadline labels it
      expired, whatever it was - and a session does so exactly under these conditions. */
  lemma RelabelledExactlyWhen(store: Store, c: Id, sender: int, env: Env, prompt: int, now: int)
    requires c in store.captures && !store.captures[c].Active()
    ensures var capture := store.captures[c];
            Activate(store, c, sender, env, prompt, now).0.captures[c].state != capture.state
            <==> && env.linkedUser == Some(capture.userId)
                 && (capture.actor == UNCLAIMED_CAPTURE_ACTOR_ID || capture.actor == sender)
                 && capture.expiresAt <= now && capture.state != Expired
  {
    hide ActivationContextError;
  }

  // ---------------------------------------------------------------- where the revisions do not help

  const OPERATOR := Env(Some(1), map[3 := Account(1, Some(4), true, false, false)], true)

  const OLD_TASK := Task(1, 3, 1, false, 0, None, 1)

  const WAITING := Capture(10, 1, 3, 4, 1, None, None, None, Waiting, None, 600, None)

  /** A task of version 1, a capture opened for it at revision 1, activated and replied to: the copy is in flight. */
  function InFlight(): State {
    Next(Next(Next(Next(INITIAL, NewTask(10, 1, 3, false, 0, 1)), Open(20, 10, 1, 1, Some(4), OPERATOR, 0, 600)),
              Activated(20, 4, OPERATOR, 5, 0)), Replied(30, 20, 4, 5, 6, OPERATOR, 0))
  }

  lemma InFlightIs()
    ensures InFlight() == State(map[10 := OLD_TASK], map[20 := WAITING.(promptId := Some(5), sourceId := Some(6), state := Processing)],
                                map[30 := Worker(20, Copying)], [], map[20 := Birth(10, 1, 0)], {10}, {})
  {
    var s1 := Next(INITIAL, NewTask(10, 1, 3, false, 0, 1));
    assert s1 == State(map[10 := OLD_TASK], map[], map[], [], map[], {10}, {});
    var s2 := Next(s1, Open(20, 10, 1, 1, Some(4), OPERATOR, 0, 600));
    assert s2 == State(map[10 := OLD_TASK], map[20 := WAITING], map[], [], map[20 := Birth(10, 1, 0)], {10}, {}) by {
      assert RetireAll(map[], 10, 0) == map[];
    }
    var s3 := Next(s2, Activated(20, 4, OPERATOR, 5, 0));
    assert s3 == s2.(captures := map[20 := WAITING.(promptId := Some(5))]);
  }

  const RESET := Edit(None, None, Some(7), Some(Some(MediaRef(3, 99))), None, None)

  /** The revision does not guard an old task against batch edits: with the copy in flight a batch edit sets the
      text and the media, and the completion finds the revision it expects and writes over that media. */
  lemma BatchEditIsOverwritten()
    ensures var edited := Next(InFlight(), BatchEdited([10], 1, RESET));
            var done := Next(edited, CopyDone(30, 77, 1));
            && edited.tasks == map[10 := OLD_TASK.(textLength := 7, media := Some(MediaRef(3, 99)))]
            && done.captures[20].state == Completed
            && done.tasks == map[10 := OLD_TASK.(textLength := 7, media := Some(MediaRef(3, 77)), version := 2, revision := 2)]
  {
    InFlightIs();
    var s := InFlight();
    hide InFlight;
    var edited := Next(s, BatchEdited([10], 1, RESET));
    assert [10][1..] == [];
    assert BatchUpdate(s.tasks, [10], 1, RESET) == Some(s.tasks[10 := Edited(OLD_TASK, RESET)]);
    assert Edited(OLD_TASK, RESET) == OLD_TASK.(textLength := 7, media := Some(MediaRef(3, 99)));
  }

  /** Nor does it guard against a bot edit that loaded the row before the completion: both write revision 2. */
  lemma StaleBotEditSharesRevision()
    ensures var done := Next(InFlight(), CopyDone(30, 77, 1));
            var saved := Next(done, BotSet(10, 1, false, 0));
            saved.log == [Write(10, 2, ByCapture(20)), Write(10, 2, ByUser)] && saved.tasks[10].revision == 2
  {
    InFlightIs();
    var s := InFlight();
    hide InFlight;
    var done := Next(s, CopyDone(30, 77, 1));
    assert done.tasks == map[10 := OLD_TASK.(media := Some(MediaRef(3, 77)), version := 2, revision := 2)];
    assert done.log == [Write(10, 2, ByCapture(20))];
    hide Complete;
    assert Next(done, BotSet(10, 1, false, 0)).log == done.log + [Write(10, 2, ByUser)];
  }
}
