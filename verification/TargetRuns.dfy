/**
 Task runs and saves that overlap. A run loads the target list once, sends to its targets one after the other,
 reading and changing the issue row of each, and commits the whole list at its end; manual runs and saves take
 no processing lock.
 */
module TargetRuns {
  import opened Common
  import opened Targets
  import opened TargetIssues

  datatype Outcome = Failed(title: Option<string>, error: SendError) | Delivered

  /** A target a run has sent to: the issue row as the run read it, and how the send ended. */
  datatype Sent = Sent(read: Option<Issue>, outcome: Outcome)

  /** A run or save in flight: the row as it loaded it, its own copy, the targets it has sent to, and the targets
      whose last send committed by another run since the load has left them not suspended. */
  datatype Flight = Flight(loaded: Task, task: Task, sent: map<Key, Sent>, saving: bool, cleared: set<Key>)

  datatype World = World(s: State, flights: map<int, Flight>)

  /** `stamped` says that a run has changed a part of its list that the items here do not keep, such as the
      identifier of a sent message. */
  datatype Step =
    | Load(id: int)
    | Send(id: int, key: Key, outcome: Outcome)
    | Submit(id: int, sub: Submission)
    | Commit(id: int, stamped: bool)
    | Drop(id: int)

  // ---------------------------------------------------------------- one run

  /** The issue row as a run leaves it in its session. */
  function Wrote(sent: Sent): Option<Issue> {
    match sent.outcome
    case Failed(_, error) => Some(Recorded(sent.read, Classify(error)))
    case Delivered =>
      if sent.read.Some? && sent.read.value.active
      then Some(sent.read.value.(active := false, failures := 0, autoSuspended := false)) else sent.read
  }

  predicate SentSuspends(sent: Sent) {
    sent.outcome.Failed? && Wrote(sent).value.autoSuspended
  }

  function SendTo(task: Task, key: Key, sent: Sent): Task {
    match sent.outcome
    case Failed(title, error) =>
      var c := Classify(error);
      AfterFailure(task, key, title, c.errorType, c.message, if SentSuspends(sent) then c.reason else None)
    case Delivered => AfterSuccess(task, key)
  }

  /** A commit writes the columns the session has changed. */
  function Column<T(==)>(row: T, read: T, wrote: T): T {
    if wrote != read then wrote else row
  }

  function Over(row: Issue, read: Issue, wrote: Issue): Issue {
    Issue(Column(row.errorType, read.errorType, wrote.errorType), Column(row.message, read.message, wrote.message),
          Column(row.category, read.category, wrote.category), Column(row.active, read.active, wrote.active),
          Column(row.failures, read.failures, wrote.failures), Column(row.autoSuspended, read.autoSuspended, wrote.autoSuspended))
  }

  function Stored(row: Option<Issue>, sent: Sent): Option<Issue> {
    if sent.read.None? then if sent.outcome.Failed? then Wrote(sent) else row
    else if row.None? then None
    else Some(Over(row.value, sent.read.value, Wrote(sent).value))
  }

  /** A save writes all its columns, a run only a list that it has changed. */
  predicate WritesList(f: Flight, stamped: bool) {
    f.saving || f.task.targets != f.loaded.targets || (stamped && f.sent != map[])
  }

  function RowAfter(s: State, f: Flight, key: Key): Option<Issue> {
    if key in f.sent then Stored(Lookup(s.issues, key), f.sent[key]) else Lookup(s.issues, key)
  }

  function HistoryAfter(s: State, f: Flight, key: Key): seq<Classification> {
    if key !in f.sent then History(s, key)
    else if f.sent[key].outcome.Delivered? then []
    else History(s, key) + [Classify(f.sent[key].outcome.error)]
  }

  function TaskAfter(s: State, f: Flight, stamped: bool): Task {
    if f.saving then f.task
    else if WritesList(f, stamped) then s.task.(targets := f.task.targets) else s.task
  }

  function Committed(s: State, f: Flight, stamped: bool): State {
    State(TaskAfter(s, f, stamped),
          map key | key in s.issues.Keys + f.sent.Keys && RowAfter(s, f, key).Some? :: RowAfter(s, f, key).value,
          map key | key in s.history.Keys + f.sent.Keys :: HistoryAfter(s, f, key))
  }

  /** A run inserts the row of a target that had none; another run has done so meanwhile, and the unique
      constraint takes the whole commit back. */
  predicate Clashes(s: State, f: Flight) {
    exists key :: key in f.sent && f.sent[key].read.None? && f.sent[key].outcome.Failed? && key in s.issues
  }

  // ---------------------------------------------------------------- runs that overlap

  /** What a flight has to know about another one's commit. */
  function Noted(g: Flight, f: Flight): Flight {
    g.(cleared := set key | key in g.cleared + f.sent.Keys && (if key in f.sent then !SentSuspends(f.sent[key]) else true))
  }

  function Landed(w: World, id: int, stamped: bool): World
    requires id in w.flights
  {
    var f := w.flights[id];
    if Clashes(w.s, f) then w.(flights := w.flights - {id})
    else World(Committed(w.s, f, stamped), map g | g in w.flights && g != id :: Noted(w.flights[g], f))
  }

  function SendOn(s: State, f: Flight, key: Key, outcome: Outcome): Flight {
    var sent := Sent(Lookup(s.issues, key), outcome);
    f.(task := SendTo(f.task, key, sent), sent := f.sent[key := sent])
  }

  /** A run sends to targets it has collected, to each once. */
  predicate CanSend(w: World, id: int, key: Key) {
    id in w.flights && !w.flights[id].saving && key !in w.flights[id].sent && Has(Collect(w.flights[id].loaded), key)
  }

  function Next(w: World, step: Step): World {
    match step
    case Load(id) =>
      if id in w.flights then w else w.(flights := w.flights[id := Flight(w.s.task, w.s.task, map[], false, {})])
    case Send(id, key, outcome) =>
      if !CanSend(w, id, key) then w
      else w.(flights := w.flights[id := SendOn(w.s, w.flights[id], key, outcome)])
    case Submit(id, sub) =>
      if id in w.flights || Save(w.s.task, sub).None? then w
      else w.(flights := w.flights[id := Flight(w.s.task, Save(w.s.task, sub).value, map[], true, {})])
    case Commit(id, stamped) => if id !in w.flights then w else Landed(w, id, stamped)
    case Drop(id) => w.(flights := w.flights - {id})
  }

  function Run(w: World, steps: seq<Step>): World
    decreases |steps|
  {
    if steps == [] then w else Run(Next(w, steps[0]), steps[1..])
  }

  /** What a commit makes of an issue row: a column the run has left as it read it stays as others have written it
      since, any other one is the run's. A row it has not found is inserted by a failure alone. */
  lemma StoredExactly(row: Option<Issue>, sent: Sent)
    ensures sent.read.None? ==> Stored(row, sent) == if sent.outcome.Delivered? then row else Some(Recorded(None, Classify(sent.outcome.error)))
    ensures sent.read.Some? && row.None? ==> Stored(row, sent).None?
    ensures sent.read.Some? && row.Some? ==>
              var read, now := sent.read.value, row.value;
              var mine := if sent.outcome.Failed? then Recorded(sent.read, Classify(sent.outcome.error))
                          else if read.active then Issue(read.errorType, read.message, read.category, false, 0, false) else read;
              && Stored(row, sent).Some?
              && var after := Stored(row, sent).value;
                 && after.errorType == (if mine.errorType == read.errorType then now.errorType else mine.errorType)
                 && after.message == (if mine.message == read.message then now.message else mine.message)
                 && after.category == (if mine.category == read.category then now.category else mine.category)
                 && after.active == (if mine.active == read.active then now.active else mine.active)
                 && after.failures == (if mine.failures == read.failures then now.failures else mine.failures)
                 && after.autoSuspended == (if mine.autoSuspended == read.autoSuspended then now.autoSuspended else mine.autoSuspended)
  {
    hide Classify, Recorded;
  }

  /** A step changes the database only by a commit that meets no row inserted meanwhile. A load or save starts from the
      row as it is, a send touches its own flight, a commit or drop ends it, and of the others only what they have to
      know about cleared targets moves. */
  lemma StepsExactly(w: World, step: Step)
    ensures var w' := Next(w, step);
            && (w'.s != w.s ==> step.Commit? && step.id in w.flights)
            && (w'.s != w.s ==> forall key | key in w.flights[step.id].sent && key in w.s.issues ::
                  w.flights[step.id].sent[key].read.Some? || w.flights[step.id].sent[key].outcome.Delivered?)
            && (step.Commit? || step.Drop? ==> step.id !in w'.flights)
            && (step.Load? && step.id !in w.flights ==> w'.flights == w.flights[step.id := Flight(w.s.task, w.s.task, map[], false, {})])
            && (step.Submit? && step.id !in w.flights && Save(w.s.task, step.sub).Some? ==>
                  w'.flights == w.flights[step.id := Flight(w.s.task, Save(w.s.task, step.sub).value, map[], true, {})])
            && ((step.Load? || step.Submit?) && step.id in w.flights ==> w' == w)
            && (forall g | g != step.id ::
                  && (g in w'.flights <==> g in w.flights)
                  && (g in w.flights ==> w'.flights[g] == w.flights[g].(cleared := w'.flights[g].cleared)))
            && (!step.Commit? ==> forall g | g in w.flights && g != step.id :: w'.flights[g] == w.flights[g])
  {
    hide Committed, SendOn, Save, Has, Collect, SentSuspends;
  }

  // ---------------------------------------------------------------- what a commit can break

  predicate Live(s: State, key: Key) {
    key in s.issues && s.issues[key].active && s.issues[key].autoSuspended
  }

  predicate HoldsSuspended(items: seq<Item>, key: Key) {
    exists i :: 0 <= i < |items| && Matches(items[i], key) && items[i].target.delivery == DeliverySuspended
  }

  /** Since the run read a row, another one has changed it, so that what the commit stores is not what recording
      the failure, or resolving the row, would make of it now. */
  predicate Miscounts(s: State, f: Flight) {
    exists key :: key in f.sent && !StoresRight(Lookup(s.issues, key), f.sent[key])
  }

  predicate StoresRight(row: Option<Issue>, sent: Sent) {
    match sent.outcome
    case Failed(_, error) => Stored(row, sent) == Some(Recorded(row, Classify(error)))
    case Delivered => Stored(row, sent).None? || !Stored(row, sent).value.active
  }

  /** The list written holds a target suspended that the run has not sent to and that another run's send has
      cleared since the load. */
  predicate Revives(f: Flight, stamped: bool) {
    WritesList(f, stamped) && exists key :: key in f.cleared && key !in f.sent && HoldsSuspended(Items(f.task), key)
  }

  /** The run has nothing to change in its own list, and the row's list holds a target suspended that the run has
      sent to without suspending it. */
  predicate LeavesSuspended(s: State, f: Flight, stamped: bool) {
    !WritesList(f, stamped) && exists key :: key in f.sent && !SentSuspends(f.sent[key]) && HoldsSuspended(Items(s.task), key)
  }

  predicate Harms(s: State, f: Flight, stamped: bool) {
    !Clashes(s, f) && (Miscounts(s, f) || Revives(f, stamped) || LeavesSuspended(s, f, stamped))
  }

  /** The suspensions of a flight's list are its own, or explained by the rows exactly as far as no other run has
      cleared them. */
  ghost predicate FlightFits(s: State, f: Flight) {
    forall key | HoldsSuspended(Items(f.task), key) ::
      if key in f.sent then SentSuspends(f.sent[key]) else Live(s, key) <==> key !in f.cleared
  }

  ghost predicate Fits(w: World) {
    TargetIssues.Inv(w.s) && forall id | id in w.flights :: FlightFits(w.s, w.flights[id])
  }

  lemma SuspensionsAreLive(s: State)
    ensures SuspensionsFit(s) <==> forall key | HoldsSuspended(Items(s.task), key) :: Live(s, key)
  {
    var items := Items(s.task);
    if forall key | HoldsSuspended(items, key) :: Live(s, key) {
      forall i | 0 <= i < |items| && items[i].Object? && items[i].target.peerId.Some? && items[i].target.delivery == DeliverySuspended
        ensures Live(s, KeyOf(items[i].target))
      {
        assert Matches(items[i], KeyOf(items[i].target));
      }
    }
  }

  lemma CommittedParts(s: State, f: Flight, stamped: bool, key: Key)
    ensures Lookup(Committed(s, f, stamped).issues, key) == RowAfter(s, f, key)
    ensures History(Committed(s, f, stamped), key) == HistoryAfter(s, f, key)
  {
    hide Stored, Classify;
  }

  /** The rows still tell their histories exactly if every row is stored right. */
  lemma CountsExactly(s: State, f: Flight, stamped: bool)
    requires RowsFit(s)
    ensures RowsFit(Committed(s, f, stamped)) <==> !Miscounts(s, f)
  {
    var s' := Committed(s, f, stamped);
    forall key ensures RowFits(Lookup(s'.issues, key), History(s', key))
                       <==> (key in f.sent ==> StoresRight(Lookup(s.issues, key), f.sent[key]))
    {
      CommittedParts(s, f, stamped, key);
      assert RowFits(Lookup(s.issues, key), History(s, key));
      hide Stored, Classify, Committed;
      if key in f.sent && f.sent[key].outcome.Failed? {
        var row := Lookup(s.issues, key);
        RecordedFits(row, History(s, key), Classify(f.sent[key].outcome.error), RowAfter(s, f, key));
        hide RowFits;
      }
    }
    hide RowFits, StoresRight, Committed, Lookup, History;
  }

  /** A row that is stored right is live exactly if the send has suspended its target. */
  lemma StoredLive(row: Option<Issue>, sent: Sent)
    requires StoresRight(row, sent) && (sent.read.None? && sent.outcome.Failed? ==> row.None?)
    ensures SentSuspends(sent) <==> Stored(row, sent).Some? && Stored(row, sent).value.active && Stored(row, sent).value.autoSuspended
  {
    if sent.outcome.Failed? {
      var c := Classify(sent.outcome.error);
      hide Classify;
      assert sent.read.Some? ==> row.Some?;
    }
  }

  lemma LiveAfter(s: State, f: Flight, stamped: bool, key: Key)
    requires !Clashes(s, f) && !Miscounts(s, f)
    ensures Live(Committed(s, f, stamped), key) <==> if key in f.sent then SentSuspends(f.sent[key]) else Live(s, key)
  {
    CommittedParts(s, f, stamped, key);
    if key in f.sent {
      var row := Lookup(s.issues, key);
      assert StoresRight(row, f.sent[key]);
      assert f.sent[key].read.None? && f.sent[key].outcome.Failed? ==> key !in s.issues;
      StoredLive(row, f.sent[key]);
    }
    hide Stored, StoresRight, Committed, SentSuspends;
  }

  /** A commit keeps the rows true to their histories and the suspensions explained exactly if it harms neither. */
  lemma CommitKeepsExactly(w: World, id: int, stamped: bool)
    requires Fits(w) && id in w.flights
    ensures TargetIssues.Inv(Next(w, Commit(id, stamped)).s) <==> !Harms(w.s, w.flights[id], stamped)
  {
    var s, f := w.s, w.flights[id];
    if Clashes(s, f) {
      return;
    }
    var s' := Committed(s, f, stamped);
    CountsExactly(s, f, stamped);
    if Miscounts(s, f) {
      return;
    }
    forall key ensures Live(s', key) <==> if key in f.sent then SentSuspends(f.sent[key]) else Live(s, key) {
      LiveAfter(s, f, stamped, key);
    }
    SuspensionsAreLive(s);
    SuspensionsAreLive(s');
    assert FlightFits(s, f);
    assert Items(s'.task) == if WritesList(f, stamped) then Items(f.task) else Items(s.task);
    hide Committed, Miscounts, SentSuspends, Live, HoldsSuspended, WritesList, SuspensionsFit, RowsFit, Clashes;
  }

  // ---------------------------------------------------------------- every other step keeps

  lemma LoadFits(w: World, id: int)
    requires Fits(w)
    ensures Fits(Next(w, Load(id)))
  {
    SuspensionsAreLive(w.s);
    hide Live, HoldsSuspended, SuspensionsFit, RowsFit;
  }

  lemma SubmitFits(w: World, id: int, sub: Submission)
    requires Fits(w)
    ensures Fits(Next(w, Submit(id, sub)))
  {
    if id in w.flights || Save(w.s.task, sub).None? {
      return;
    }
    var s' := w.s.(task := Save(w.s.task, sub).value);
    SaveKeeps(w.s, sub);
    SuspensionsAreLive(s');
    assert forall key :: Live(s', key) == Live(w.s, key);
    hide Save, Live, HoldsSuspended, SuspensionsFit, RowsFit;
  }

  /** A send changes the matching items alone, and leaves them suspended exactly if it suspends. */
  lemma SendChanges(task: Task, key: Key, sent: Sent, k: Key)
    ensures HoldsSuspended(Items(SendTo(task, key, sent)), k) ==> if k == key then SentSuspends(sent) else HoldsSuspended(Items(task), k)
  {
    var items, items' := Items(task), Items(SendTo(task, key, sent));
    if HoldsSuspended(items', k) {
      var i :| 0 <= i < |items'| && Matches(items'[i], k) && items'[i].target.delivery == DeliverySuspended;
      assert Matches(items[i], k);
    }
  }

  lemma SendFits(w: World, id: int, key: Key, outcome: Outcome)
    requires Fits(w)
    ensures Fits(Next(w, Send(id, key, outcome)))
  {
    if !CanSend(w, id, key) {
      return;
    }
    var f := w.flights[id];
    var f' := SendOn(w.s, f, key, outcome);
    assert FlightFits(w.s, f);
    forall k | HoldsSuspended(Items(f'.task), k)
      ensures if k in f'.sent then SentSuspends(f'.sent[k]) else Live(w.s, k) <==> k !in f'.cleared
    {
      SendChanges(f.task, key, f'.sent[key], k);
    }
    hide FlightFits, SendTo, SendOn, Live, HoldsSuspended, SentSuspends, TargetIssues.Inv, CanSend;
    assert FlightFits(w.s, f');
  }

  lemma CommitFits(w: World, id: int, stamped: bool)
    requires Fits(w) && (id in w.flights ==> !Harms(w.s, w.flights[id], stamped))
    ensures Fits(Next(w, Commit(id, stamped)))
  {
    if id !in w.flights {
      return;
    }
    var s, f := w.s, w.flights[id];
    CommitKeepsExactly(w, id, stamped);
    if Clashes(s, f) {
      return;
    }
    var s' := Committed(s, f, stamped);
    forall g | g in w.flights && g != id ensures FlightFits(s', Noted(w.flights[g], f)) {
      NotedFits(s, f, stamped, w.flights[g]);
    }
    hide Committed, Harms, FlightFits, Noted, TargetIssues.Inv, Clashes;
  }

  lemma NotedFits(s: State, f: Flight, stamped: bool, g: Flight)
    requires FlightFits(s, g) && !Clashes(s, f) && !Miscounts(s, f)
    ensures FlightFits(Committed(s, f, stamped), Noted(g, f))
  {
    forall key | HoldsSuspended(Items(g.task), key) && key !in g.sent
      ensures Live(Committed(s, f, stamped), key) <==> key !in Noted(g, f).cleared
    {
      LiveAfter(s, f, stamped, key);
    }
    hide Committed, Live, HoldsSuspended, SentSuspends;
  }

  // ---------------------------------------------------------------- whole runs

  /** No commit does harm. */
  ghost predicate Harmless(w: World, steps: seq<Step>)
    decreases |steps|
  {
    steps != [] ==>
      && (steps[0].Commit? && steps[0].id in w.flights ==> !Harms(w.s, w.flights[steps[0].id], steps[0].stamped))
      && Harmless(Next(w, steps[0]), steps[1..])
  }

  lemma StepFits(w: World, step: Step)
    requires Fits(w)
    requires step.Commit? && step.id in w.flights ==> !Harms(w.s, w.flights[step.id], step.stamped)
    ensures Fits(Next(w, step))
  {
    hide Next, Fits, Harms;
    match step
    case Load(id) => LoadFits(w, id);
    case Send(id, key, outcome) => SendFits(w, id, key, outcome);
    case Submit(id, sub) => SubmitFits(w, id, sub);
    case Commit(id, stamped) => CommitFits(w, id, stamped);
    case Drop(id) => DropFits(w, id);
  }

  lemma DropFits(w: World, id: int)
    requires Fits(w)
    ensures Fits(Next(w, Drop(id)))
  {
    hide FlightFits, TargetIssues.Inv;
  }

  lemma {:induction false} RunFits(w: World, steps: seq<Step>)
    requires Fits(w) && Harmless(w, steps)
    ensures Fits(Run(w, steps))
    decreases |steps|
  {
    hide Next, Fits, Harms;
    if steps != [] {
      StepFits(w, steps[0]);
      RunFits(Next(w, steps[0]), steps[1..]);
    }
  }

  /** Over any interleaving of loads, sends, saves and commits of any number of runs, a suspended explicit target has
      an active, auto-suspended issue row, and the counter of every row is the length of the run of equal failures
      at the end of its target's history, as long as no commit does harm. */
  lemma SuspendedTargetsHaveIssues(s: State, steps: seq<Step>)
    requires Fresh(s) && Harmless(World(s, map[]), steps)
    ensures TargetIssues.Inv(Run(World(s, map[]), steps).s)
  {
    FreshFits(s);
    hide Run, Harmless, TargetIssues.Inv, Fresh;
    RunFits(World(s, map[]), steps);
  }

  /** A run that finds the rows as it has read them counts right. */
  lemma UnmovedCounts(s: State, f: Flight)
    requires forall key | key in f.sent :: Lookup(s.issues, key) == f.sent[key].read
    ensures !Clashes(s, f) && !Miscounts(s, f)
  {
    forall key | key in f.sent ensures StoresRight(Lookup(s.issues, key), f.sent[key]) {
      hide Classify;
    }
    hide StoresRight;
  }

  // ---------------------------------------------------------------- a run nobody disturbs

  function Turn(s: State, key: Key, outcome: Outcome): State {
    match outcome
    case Failed(title, error) => TargetIssues.Next(s, SendFailed(key, title, error))
    case Delivered => TargetIssues.Next(s, SendOk(key))
  }

  function Turns(s: State, sends: seq<(Key, Outcome)>): State
    decreases |sends|
  {
    if sends == [] then s else Turns(Turn(s, sends[0].0, sends[0].1), sends[1..])
  }

  function SendSteps(id: int, sends: seq<(Key, Outcome)>): (r: seq<Step>)
    ensures |r| == |sends|
  {
    seq(|sends|, i requires 0 <= i < |sends| => Send(id, sends[i].0, sends[i].1))
  }

  /** The sends still to come: to targets collected, to each once, to none sent to before. */
  ghost predicate ToCome(f: Flight, sends: seq<(Key, Outcome)>) {
    && (forall i | 0 <= i < |sends| :: sends[i].0 !in f.sent && Has(Collect(f.loaded), sends[i].0))
    && forall i, j | 0 <= i < j < |sends| :: sends[i].0 != sends[j].0
  }

  /** A run in flight in a state nobody has changed since the load. */
  ghost predicate Alone(w: World, id: int) {
    && id in w.flights && !w.flights[id].saving && w.flights[id].loaded == w.s.task
    && forall key | key in w.flights[id].sent :: w.flights[id].sent[key].read == Lookup(w.s.issues, key)
  }

  lemma StoredAsRead(row: Option<Issue>, outcome: Outcome)
    ensures Stored(row, Sent(row, outcome)) == Wrote(Sent(row, outcome))
  {
    hide Classify, Recorded;
  }

  /** A turn is a send on the rows as they are. */
  lemma TurnIsSend(s: State, key: Key, outcome: Outcome)
    ensures var (t, sent) := (Turn(s, key, outcome), Sent(Lookup(s.issues, key), outcome));
            && t.task == SendTo(s.task, key, sent)
            && (forall k :: Lookup(t.issues, k) == if k == key then Wrote(sent) else Lookup(s.issues, k))
            && t.history == s.history[key := if outcome.Delivered? then [] else History(s, key) + [Classify(outcome.error)]]
  {
    hide Classify, AfterFailure, AfterSuccess;
  }

  lemma AloneTask(s: State, f: Flight, stamped: bool)
    requires !f.saving && f.loaded == s.task
    ensures Committed(s, f, stamped).task == s.task.(targets := f.task.targets)
  {
  }

  lemma SendToTargets(task: Task, other: Task, key: Key, sent: Sent)
    requires task.targets == other.targets
    ensures SendTo(task, key, sent) == task.(targets := SendTo(other, key, sent).targets)
  {
    hide Classify, FailedItems, RecoveredItems, SentSuspends;
  }

  /** For such a run, one send more before the commit is one turn more after it. */
  lemma OneMoreTurn(w: World, id: int, key: Key, outcome: Outcome, stamped: bool)
    requires Alone(w, id) && key !in w.flights[id].sent
    ensures Committed(w.s, SendOn(w.s, w.flights[id], key, outcome), stamped) == Turn(Committed(w.s, w.flights[id], stamped), key, outcome)
  {
    var s, f := w.s, w.flights[id];
    var sent := Sent(Lookup(s.issues, key), outcome);
    var f' := SendOn(s, f, key, outcome);
    hide Classify, SendTo, SentSuspends;
    var before, after := Committed(s, f, stamped), Committed(s, f', stamped);
    CommittedParts(s, f, stamped, key);
    TurnIsSend(before, key, outcome);
    AloneTask(s, f, stamped);
    AloneTask(s, f', stamped);
    SendToTargets(before.task, f.task, key, sent);
    hide Turn, Wrote, Stored, Committed;
    SentParts(s, f, key, sent, stamped);
    SameMap(after.issues, Turn(before, key, outcome).issues);
  }

  lemma SentParts(s: State, f: Flight, key: Key, sent: Sent, stamped: bool)
    requires key !in f.sent && sent.read == Lookup(s.issues, key)
    ensures var before, after := Committed(s, f, stamped), Committed(s, SendOn(s, f, key, sent.outcome), stamped);
            && (forall k :: Lookup(after.issues, k) == if k == key then Wrote(sent) else Lookup(before.issues, k))
            && after.history == before.history[key := HistoryAfter(s, SendOn(s, f, key, sent.outcome), key)]
  {
    var f' := SendOn(s, f, key, sent.outcome);
    assert f'.sent == f.sent[key := sent];
    StoredAsRead(sent.read, sent.outcome);
    SentHistory(s, f, f', key, sent, stamped);
    hide SendOn, Stored, Wrote, HistoryAfter, Committed;
    forall k ensures Lookup(Committed(s, f', stamped).issues, k) == if k == key then Wrote(sent) else Lookup(Committed(s, f, stamped).issues, k) {
      CommittedParts(s, f, stamped, k);
      CommittedParts(s, f', stamped, k);
    }
  }

  lemma SentHistory(s: State, f: Flight, f': Flight, key: Key, sent: Sent, stamped: bool)
    requires f'.sent == f.sent[key := sent]
    ensures Committed(s, f', stamped).history == Committed(s, f, stamped).history[key := HistoryAfter(s, f', key)]
  {
    hide Stored, RowAfter, Classify, History, WritesList;
    var before, after := Committed(s, f, stamped).history, Committed(s, f', stamped).history;
    assert after.Keys == before.Keys + {key};
    forall k | k in after && k != key ensures k in before && after[k] == before[k] {
      assert k in f.sent <==> k in f'.sent;
    }
  }

  lemma SameMap<K, V>(a: map<K, V>, b: map<K, V>)
    requires forall k :: Lookup(a, k) == Lookup(b, k)
    ensures a == b
  {
    forall k ensures (k in a <==> k in b) && (k in a ==> a[k] == b[k]) {
      assert Lookup(a, k) == Lookup(b, k);
    }
  }

  lemma {:induction false} SendsThenCommit(w: World, id: int, sends: seq<(Key, Outcome)>, stamped: bool)
    requires Alone(w, id) && ToCome(w.flights[id], sends)
    ensures Run(w, SendSteps(id, sends) + [Commit(id, stamped)]).s == Turns(Committed(w.s, w.flights[id], stamped), sends)
    decreases |sends|
  {
    var f, steps := w.flights[id], SendSteps(id, sends) + [Commit(id, stamped)];
    hide Committed, SendTo, Turn;
    if sends == [] {
      UnmovedCounts(w.s, f);
      assert steps == [Commit(id, stamped)] && steps[1..] == [];
      hide Clashes;
      assert Run(w, steps) == Run(Next(w, Commit(id, stamped)), []);
      return;
    }
    var (key, outcome) := sends[0];
    var w' := Next(w, steps[0]);
    assert steps[0] == Send(id, key, outcome) && CanSend(w, id, key);
    assert steps[1..] == SendSteps(id, sends[1..]) + [Commit(id, stamped)];
    assert ToCome(w'.flights[id], sends[1..]);
    OneMoreTurn(w, id, key, outcome, stamped);
    hide Next;
    SendsThenCommit(w', id, sends[1..], stamped);
  }

  lemma NothingSent(s: State, stamped: bool)
    ensures Committed(s, Flight(s.task, s.task, map[], false, {}), stamped) == s
  {
    var c := Committed(s, Flight(s.task, s.task, map[], false, {}), stamped);
    assert c.issues == s.issues && c.history == s.history;
  }

  /** A run that nobody disturbs does what its sends would do if each read and wrote the row on its own. */
  lemma UndisturbedRunIsTurns(s: State, id: int, sends: seq<(Key, Outcome)>, stamped: bool)
    requires forall i | 0 <= i < |sends| :: Has(Collect(s.task), sends[i].0)
    requires forall i, j | 0 <= i < j < |sends| :: sends[i].0 != sends[j].0
    ensures Run(World(s, map[]), [Load(id)] + (SendSteps(id, sends) + [Commit(id, stamped)])).s == Turns(s, sends)
  {
    var rest := SendSteps(id, sends) + [Commit(id, stamped)];
    var w := Next(World(s, map[]), Load(id));
    assert ([Load(id)] + rest)[1..] == rest;
    NothingSent(s, stamped);
    hide Committed, Turns, Collect, Has;
    SendsThenCommit(w, id, sends, stamped);
  }

  lemma NothingNoted(g: Flight, f: Flight)
    requires f.sent == map[]
    ensures Noted(g, f) == g
  {
    assert Noted(g, f).cleared == g.cleared;
  }

  lemma SaveLands(w: World, id: int, stamped: bool)
    requires id in w.flights && w.flights[id].saving && w.flights[id].sent == map[]
    ensures Next(w, Commit(id, stamped)) == World(w.s.(task := w.flights[id].task), w.flights - {id})
  {
    hide Stored, Noted;
    var f := w.flights[id];
    var c := Committed(w.s, f, stamped);
    assert c.issues == w.s.issues && c.history == w.s.history;
    forall g | g in w.flights ensures Noted(w.flights[g], f) == w.flights[g] {
      NothingNoted(w.flights[g], f);
    }
    hide Committed;
    assert Next(w, Commit(id, stamped)).flights == w.flights - {id};
  }

  /** A save with nothing between its load and its commit is the save of the row as it is. */
  lemma UndisturbedSaveIsStep(w: World, id: int, sub: Submission, stamped: bool)
    requires id !in w.flights
    ensures Next(Next(w, Submit(id, sub)), Commit(id, stamped)) == World(TargetIssues.Next(w.s, Saved(sub)), w.flights)
  {
    hide Save, Landed;
    var w' := Next(w, Submit(id, sub));
    if Save(w.s.task, sub).Some? {
      SaveLands(w', id, stamped);
      assert w'.flights - {id} == w.flights;
    }
  }

  /** Such a run does no harm. */
  lemma AloneIsHarmless(w: World, id: int, stamped: bool)
    requires Fits(w) && Alone(w, id) && w.flights[id].cleared == {}
    ensures !Harms(w.s, w.flights[id], stamped)
  {
    UnmovedCounts(w.s, w.flights[id]);
    assert FlightFits(w.s, w.flights[id]);
    hide Clashes, Miscounts, HoldsSuspended, SentSuspends;
  }

  // ---------------------------------------------------------------- runs that do harm

  const ONE := Key(User, 1)
  const TWO := Key(User, 2)
  const FORBIDS := Forbidden("ChatRestrictedError")
  const THREE := Target(Some(3), User, None, None, DeliveryUnset, None, None, None, None)
  const OWN_TASK := Task(Some(OWN_LIST), Some(1), User, None)

  const ROW_ONE := Recorded(None, Classify(FORBIDS))

  /** User 1 suspended by one failure, user 2 active. */
  const ONE_SUSPENDED := State(OWN_TASK, map[ONE := ROW_ONE], map[ONE := [Classify(FORBIDS)]])

  lemma OneSuspendedFits()
    ensures TargetIssues.Inv(ONE_SUSPENDED)
  {
    var s := ONE_SUSPENDED;
    var c := Classify(FORBIDS);
    assert [] + [c] == [c];
    RecordedFits(None, [], c, Lookup(s.issues, ONE));
    forall key ensures RowFits(Lookup(s.issues, key), History(s, key)) {
    }
  }

  const RAW: seq<Item> := [Object(SUSPENDED_ONE), Object(THREE)]
  const INCOMING := [Stripped(SUSPENDED_ONE), THREE]
  const ONE_RESET := SUSPENDED_ONE.(delivery := DeliveryActive, suspendedReason := None)

  lemma RawNormalized()
    ensures AllValid(RAW) && Firsts(RAW, {}) == INCOMING && CollectionChanged(INCOMING, OWN_LIST)
  {
    var seen := {} + {ONE};
    assert RAW[1..] == [Object(THREE)] && [Object(THREE)][1..] == [];
    assert Firsts([Object(THREE)], seen) == [Stripped(THREE)];
    assert Firsts(RAW, {}) == [Stripped(SUSPENDED_ONE)] + Firsts([Object(THREE)], seen);
    hide Firsts;
    assert Objects(INCOMING) == [Object(INCOMING[0]), Object(INCOMING[1])] && OWN_LIST == [OWN_LIST[0], OWN_LIST[1]];
    TwoIdentities(OWN_LIST[0], OWN_LIST[1]);
    TwoIdentities(Object(INCOMING[0]), Object(INCOMING[1]));
    hide Identities;
    assert (User, 3, None) in Identities(Objects(INCOMING)) && (User, 3, None) !in Identities(OWN_LIST);
  }

  lemma LastOfTwo(a: Item, b: Item, key: Key)
    requires Valid(a) && Valid(b) && key.peerType != OtherType("")
    ensures LastMatch([a, b], key) == if Matches(b, key) then Some(b.target) else if Matches(a, key) then Some(a.target) else None
  {
    assert [a, b][..1] == [a] && [a][..0] == [];
    assert LastMatch([a], key) == if Matches(a, key) then Some(a.target) else None;
  }

  /** A save of users 1 and 3 over that list leaves both active. */
  lemma SavesOneAndThree(task: Task)
    requires task.targets == Some(OWN_LIST)
    ensures var saved := Save(task, TargetsGiven(RAW));
            saved.Some? && saved.value.targets == Some([Object(ONE_RESET), Object(THREE.(delivery := DeliveryActive))])
  {
    OwnListNormalized();
    RawNormalized();
    LastOfTwo(OWN_LIST[0], OWN_LIST[1], ONE);
    LastOfTwo(OWN_LIST[0], OWN_LIST[1], Key(User, 3));
    assert OWN_LIST == [OWN_LIST[0], OWN_LIST[1]];
    hide Identities, Incomparable, CollectionChanged, LastMatch, Firsts;
    assert Merge(INCOMING, OWN_LIST, true) == [Object(ONE_RESET), Object(THREE.(delivery := DeliveryActive))];
  }

  lemma CanCollect(task: Task, i: nat)
    requires i < |Items(task)| && Visible(Items(task)[i])
    ensures Has(Collect(task), KeyOf(Items(task)[i].target))
  {
    assert HasExplicit(Items(task));
    CollectsKeys(task);
    hide Collect, Has, HasExplicit;
  }

  lemma {:induction false} RunFour(w: World, a: Step, b: Step, c: Step, d: Step, rest: seq<Step>)
    ensures Run(w, [a, b, c, d] + rest) == Run(Next(Next(Next(Next(w, a), b), c), d), rest)
  {
    hide Next;
    assert ([a, b, c, d] + rest)[1..] == [b, c, d] + rest && ([b, c, d] + rest)[1..] == [c, d] + rest;
    assert ([c, d] + rest)[1..] == [d] + rest && ([d] + rest)[1..] == rest;
    assert Run(w, [a, b, c, d] + rest) == Run(Next(w, a), [b, c, d] + rest);
    assert Run(Next(w, a), [b, c, d] + rest) == Run(Next(Next(w, a), b), [c, d] + rest);
  }

  const SENT_TWO := Flight(OWN_TASK, OWN_TASK, map[TWO := Sent(None, Delivered)], false, {})

  lemma SendsToTwo()
    ensures Next(Next(World(ONE_SUSPENDED, map[]), Load(0)), Send(0, TWO, Delivered)) == World(ONE_SUSPENDED, map[0 := SENT_TWO])
  {
    CanCollect(OWN_TASK, 1);
    hide Collect, Has, Classify;
    assert RecoveredItems(OWN_LIST, TWO) == OWN_LIST;
  }

  lemma SendsToOne(s: State)
    requires s.issues == ONE_SUSPENDED.issues && s.task.targets == Some([Object(ONE_RESET), Object(THREE.(delivery := DeliveryActive))])
    ensures var w := World(s, map[0 := SENT_TWO]);
            var f := SendOn(s, Flight(s.task, s.task, map[], false, {}), ONE, Delivered);
            && Next(Next(w, Load(2)), Send(2, ONE, Delivered)) == World(s, map[0 := SENT_TWO, 2 := f])
            && f.sent == map[ONE := Sent(Some(ROW_ONE), Delivered)]
  {
    CanCollect(s.task, 0);
    hide Collect, Has, Classify, Recorded, SendTo;
  }

  /** The commit of a run that has sent to user 1 with success while the other one is in flight. */
  lemma OneDelivered(w: World)
    requires w.flights.Keys == {0, 2} && w.flights[0] == SENT_TWO && w.s.issues == ONE_SUSPENDED.issues
    requires w.flights[2].sent == map[ONE := Sent(Some(ROW_ONE), Delivered)]
    ensures var w' := Next(w, Commit(2, true));
            && w'.flights.Keys == {0} && w'.flights[0] == SENT_TWO.(cleared := {ONE})
            && Lookup(w'.s.issues, ONE) == Some(ROW_ONE.(active := false, failures := 0, autoSuspended := false))
  {
    hide Classify;
    CommittedParts(w.s, w.flights[2], true, ONE);
    hide Committed;
    assert Noted(SENT_TWO, w.flights[2]).cleared == {ONE};
  }

  /** User 1 is suspended. A run loads the list of users 1 and 2 and sends to 2; meanwhile the user saves users 1 and
      3, and another run sends to 1 with success. The first run's commit brings the old list back: user 1 is
      suspended though its issue is resolved, and user 3 is gone. */
  lemma {:induction false} StaleListRevives()
    ensures TargetIssues.Inv(ONE_SUSPENDED)
    ensures var steps := [Load(0), Send(0, TWO, Delivered), Submit(1, TargetsGiven(RAW)), Commit(1, false)]
                         + ([Load(2), Send(2, ONE, Delivered), Commit(2, true), Commit(0, true)] + []);
            var s := Run(World(ONE_SUSPENDED, map[]), steps).s;
            s.task.targets == Some(OWN_LIST) && HoldsSuspended(OWN_LIST, ONE) && !Live(s, ONE)
  {
    OneSuspendedFits();
    SendsToTwo();
    SavesOneAndThree(OWN_TASK);
    var w0, w1 := World(ONE_SUSPENDED, map[]), World(ONE_SUSPENDED, map[0 := SENT_TWO]);
    UndisturbedSaveIsStep(w1, 1, TargetsGiven(RAW), false);
    var w2 := World(TargetIssues.Next(w1.s, Saved(TargetsGiven(RAW))), w1.flights);
    SendsToOne(w2.s);
    OneDelivered(Next(Next(w2, Load(2)), Send(2, ONE, Delivered)));
    var w3 := Next(Next(Next(w2, Load(2)), Send(2, ONE, Delivered)), Commit(2, true));
    RunFour(w0, Load(0), Send(0, TWO, Delivered), Submit(1, TargetsGiven(RAW)), Commit(1, false),
            [Load(2), Send(2, ONE, Delivered), Commit(2, true), Commit(0, true)] + []);
    RunFour(w2, Load(2), Send(2, ONE, Delivered), Commit(2, true), Commit(0, true), []);
    OldListBack(w3);
    hide Next, TargetIssues.Next, Save;
    assert Matches(OWN_LIST[0], ONE);
  }

  lemma OldListBack(w: World)
    requires w.flights.Keys == {0} && w.flights[0] == SENT_TWO.(cleared := {ONE})
    requires Lookup(w.s.issues, ONE).Some? && !Lookup(w.s.issues, ONE).value.active
    ensures var s := Next(w, Commit(0, true)).s;
            s.task.targets == Some(OWN_LIST) && !Live(s, ONE)
  {
    CommittedParts(w.s, w.flights[0], true, ONE);
    assert TWO in SENT_TWO.sent;
  }

  const EMPTY := Classification("EmptyMessageResultError", "empty_result", "empty", false, Some("empty_result"), Some(3))
  const EMPTY_TASK := Task(Some([Object(ACTIVE_TWO)]), Some(2), User, None)

  function EmptyRow(n: nat): Issue {
    Issue(EMPTY.errorType, EMPTY.message, EMPTY.category, true, n, n >= 3)
  }

  /** One empty result from user 2. */
  const EMPTY_ONCE := State(EMPTY_TASK, map[TWO := EmptyRow(1)], map[TWO := [EMPTY]])

  const SENT_EMPTY := SendOn(EMPTY_ONCE, Flight(EMPTY_TASK, EMPTY_TASK, map[], false, {}), TWO, Failed(None, EmptyResult))

  lemma EmptyOnceFits()
    ensures TargetIssues.Inv(EMPTY_ONCE)
  {
    assert [] + [EMPTY] == [EMPTY];
    RecordedFits(None, [], EMPTY, Some(EmptyRow(1)));
    forall key ensures RowFits(Lookup(EMPTY_ONCE.issues, key), History(EMPTY_ONCE, key)) {
    }
  }

  lemma BothSendEmpty()
    ensures var (w, empty) := (World(EMPTY_ONCE, map[]), Failed(None, EmptyResult));
            Next(Next(Next(Next(w, Load(0)), Load(1)), Send(0, TWO, empty)), Send(1, TWO, empty))
            == World(EMPTY_ONCE, map[0 := SENT_EMPTY, 1 := SENT_EMPTY])
  {
    CanCollect(EMPTY_TASK, 0);
    hide Collect, Has, SendOn;
  }

  lemma SentEmptyIs()
    ensures SENT_EMPTY.sent == map[TWO := Sent(Some(EmptyRow(1)), Failed(None, EmptyResult))]
    ensures SENT_EMPTY.task.targets == Some([Object(ACTIVE_TWO.(lastErrorType := Some(EMPTY.errorType), lastErrorMessage := Some(EMPTY.message)))])
    ensures SENT_EMPTY.loaded == EMPTY_TASK && !SENT_EMPTY.saving
  {
    assert Classify(EmptyResult) == EMPTY;
    assert FailedItems([Object(ACTIVE_TWO)], TWO, None, EMPTY.errorType, EMPTY.message, None)
        == [Object(ACTIVE_TWO.(lastErrorType := Some(EMPTY.errorType), lastErrorMessage := Some(EMPTY.message)))];
  }

  /** A flight that has read the counter as 1 commits: the row says 2 whatever it said. */
  lemma CommitsTwo(w: World, id: int)
    requires id in w.flights && w.flights[id].sent == SENT_EMPTY.sent && w.flights[id].task == SENT_EMPTY.task
    requires w.flights[id].loaded == EMPTY_TASK && !w.flights[id].saving && TWO in w.s.issues
    requires w.s.issues[TWO] == EmptyRow(w.s.issues[TWO].failures) && w.s.issues[TWO].failures <= 2
    ensures var w' := Next(w, Commit(id, false));
            && Lookup(w'.s.issues, TWO) == Some(EmptyRow(2)) && History(w'.s, TWO) == History(w.s, TWO) + [EMPTY]
            && (forall g | g in w.flights && g != id :: g in w'.flights && w'.flights[g] == Noted(w.flights[g], w.flights[id]))
            && w'.s.task.targets == SENT_EMPTY.task.targets
  {
    var f := w.flights[id];
    CommittedParts(w.s, f, false, TWO);
    SentEmptyIs();
    assert Classify(EmptyResult) == EMPTY;
    hide Classify, Noted, SendOn;
    assert !Clashes(w.s, f);
    assert f.task.targets != f.loaded.targets;
    hide Committed;
  }

  /** Two runs that send to the same target both read the row's counter as 1 and both write 2: three empty
      results in a row, and the target is still collected. */
  lemma {:induction false} OverlappingRunsMiscount()
    ensures TargetIssues.Inv(EMPTY_ONCE)
    ensures var empty := Failed(None, EmptyResult);
            var steps := [Load(0), Load(1), Send(0, TWO, empty), Send(1, TWO, empty)] + [Commit(0, false), Commit(1, false)];
            var s := Run(World(EMPTY_ONCE, map[]), steps).s;
            History(s, TWO) == [EMPTY, EMPTY, EMPTY] && Lookup(s.issues, TWO) == Some(EmptyRow(2)) && Has(Collect(s.task), TWO)
  {
    var empty := Failed(None, EmptyResult);
    var w0, w1 := World(EMPTY_ONCE, map[]), World(EMPTY_ONCE, map[0 := SENT_EMPTY, 1 := SENT_EMPTY]);
    var w2 := Next(w1, Commit(0, false));
    var w3 := Next(w2, Commit(1, false));
    EmptyOnceFits();
    BothSendEmpty();
    SentEmptyIs();
    hide Next, Collect, Has, SendOn;
    CommitsTwo(w1, 0);
    CommitsTwo(w2, 1);
    RunFour(w0, Load(0), Load(1), Send(0, TWO, empty), Send(1, TWO, empty), [Commit(0, false), Commit(1, false)]);
    assert [Commit(0, false), Commit(1, false)][1..] == [Commit(1, false)] && [Commit(1, false)][1..] == [];
    CanCollect(w3.s.task, 0);
    assert Run(w1, [Commit(0, false), Commit(1, false)]) == Run(w2, [Commit(1, false)]);
    assert Run(w2, [Commit(1, false)]) == Run(w3, []);
  }

  const SLOW := RateLimited("SlowModeWaitError")
  const LIMITED := Classify(SLOW)
  const ONE_LIMITED := Target(Some(1), User, None, None, DeliveryActive, None, Some(LIMITED.errorType), Some(LIMITED.message), None)
  const LIMITED_TASK := Task(Some([Object(ONE_LIMITED)]), Some(1), User, None)

  /** One rate limit from user 1, noted in the list. */
  const LIMITED_ONCE := State(LIMITED_TASK, map[ONE := Recorded(None, LIMITED)], map[ONE := [LIMITED]])

  lemma LimitedOnceFits()
    ensures TargetIssues.Inv(LIMITED_ONCE)
  {
    assert [] + [LIMITED] == [LIMITED];
    RecordedFits(None, [], LIMITED, Lookup(LIMITED_ONCE.issues, ONE));
    forall key ensures RowFits(Lookup(LIMITED_ONCE.issues, key), History(LIMITED_ONCE, key)) {
    }
  }

  const LOADED_LIMITED := Flight(LIMITED_TASK, LIMITED_TASK, map[], false, {})

  const SUSPENDED_LIMITED := SendOn(LIMITED_ONCE, LOADED_LIMITED, ONE, Failed(None, FORBIDS))

  lemma SuspendedLimitedIs()
    ensures var f := SUSPENDED_LIMITED;
            && f.sent == map[ONE := Sent(Some(Recorded(None, LIMITED)), Failed(None, FORBIDS))]
            && Wrote(f.sent[ONE]) == Some(ROW_ONE) && SentSuspends(f.sent[ONE])
            && f.task.targets.Some? && HoldsSuspended(f.task.targets.value, ONE) && f.task.targets != LIMITED_TASK.targets
  {
    var items := SUSPENDED_LIMITED.task.targets.value;
    assert Matches(items[0], ONE) && items[0].target.delivery == DeliverySuspended;
  }

  /** While run 0 is in flight, run 1 suspends user 1. */
  lemma SuspendedMeanwhile()
    ensures var w := Next(Next(World(LIMITED_ONCE, map[]), Load(0)), Load(1));
            var w' := Next(Next(w, Send(1, ONE, Failed(None, FORBIDS))), Commit(1, false));
            && w'.flights.Keys == {0} && w'.flights[0] == LOADED_LIMITED
            && HoldsSuspended(Items(w'.s.task), ONE) && Lookup(w'.s.issues, ONE) == Some(ROW_ONE)
  {
    CanCollect(LIMITED_TASK, 0);
    SuspendedLimitedIs();
    StoredAsRead(Some(Recorded(None, LIMITED)), Failed(None, FORBIDS));
    hide Collect, Has, SendOn, Wrote, SentSuspends, Stored, HoldsSuspended;
    var w := Next(Next(World(LIMITED_ONCE, map[]), Load(0)), Load(1));
    assert w.flights == map[0 := LOADED_LIMITED, 1 := LOADED_LIMITED];
    var f := SUSPENDED_LIMITED;
    assert Next(w, Send(1, ONE, Failed(None, FORBIDS))).flights == map[0 := LOADED_LIMITED, 1 := f];
    CommittedParts(LIMITED_ONCE, f, false, ONE);
    assert Noted(LOADED_LIMITED, f).cleared == {};
  }

  /** The rate limit once more, noted over the suspension: the run's list is as it was. */
  lemma LimitedAgain(w: World)
    requires w.flights.Keys == {0} && w.flights[0] == LOADED_LIMITED
    requires Lookup(w.s.issues, ONE) == Some(ROW_ONE)
    ensures var w' := Next(Next(w, Send(0, ONE, Failed(None, SLOW))), Commit(0, false));
            w'.s.task == w.s.task && !Live(w'.s, ONE)
  {
    CanCollect(LIMITED_TASK, 0);
    hide Collect, Has;
    var w1 := Next(w, Send(0, ONE, Failed(None, SLOW)));
    var f := w1.flights[0];
    assert f.sent == map[ONE := Sent(Some(ROW_ONE), Failed(None, SLOW))];
    assert f.task.targets.value == [Object(ONE_LIMITED)];
    CommittedParts(w1.s, f, false, ONE);
  }

  /** A run meets a rate limit that its own list has noted already, and so does not write the list; another run has
      suspended the target meanwhile. The target stays suspended, its row is not. */
  lemma {:induction false} UnwrittenListLeavesSuspended()
    ensures TargetIssues.Inv(LIMITED_ONCE)
    ensures var steps := [Load(0), Load(1), Send(1, ONE, Failed(None, FORBIDS)), Commit(1, false)]
                         + [Send(0, ONE, Failed(None, SLOW)), Commit(0, false)];
            var s := Run(World(LIMITED_ONCE, map[]), steps).s;
            HoldsSuspended(Items(s.task), ONE) && !Live(s, ONE)
  {
    var w0 := World(LIMITED_ONCE, map[]);
    var rest := [Send(0, ONE, Failed(None, SLOW)), Commit(0, false)];
    LimitedOnceFits();
    SuspendedMeanwhile();
    hide Next, HoldsSuspended;
    var w1 := Next(Next(Next(Next(w0, Load(0)), Load(1)), Send(1, ONE, Failed(None, FORBIDS))), Commit(1, false));
    LimitedAgain(w1);
    RunFour(w0, Load(0), Load(1), Send(1, ONE, Failed(None, FORBIDS)), Commit(1, false), rest);
    assert rest[1..] == [Commit(0, false)] && rest[1..][1..] == [];
    assert Run(w1, rest) == Run(Next(w1, rest[0]), rest[1..]);
    assert Run(Next(w1, rest[0]), rest[1..]) == Run(Next(Next(w1, rest[0]), Commit(0, false)), []);
  }
}
