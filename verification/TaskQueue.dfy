/**
 The scheduler's Redis queue: a sorted set of task ids.  A producer proposes an execution time for every
 due task: it reads the task's score in one command and, if there is none or it is larger, writes its own in
 another. A consumer's script removes the smallest due scores and returns them in one atomic step.
 */
module TaskQueue {
  import opened Common

  type TaskId = int
  type Queue = map<TaskId, int>

  const JITTER_RANGE := 300
  const URGENT_PRIORITY_THRESHOLD := 100
  const MAX_WEIGHT_DELAY := 120
  const URGENT_JITTER := 3

  // ---------------------------------------------------------------- the proposed execution time

  datatype DueTask = DueTask(id: TaskId, delayMin: int, delayMax: int, jitterSeconds: int, priority: int, weight: Option<int>)

  /** What the two random draws for one task returned. */
  datatype Draw = Draw(jitter: int, extra: int)

  /** The closed interval of the first draw. */
  function JitterBounds(task: DueTask): (int, int) {
    var delayMin := Max(0, task.delayMin);
    var delayMax := Max(delayMin, task.delayMax);
    if delayMax > 0 then
      var upper := Min(delayMax, JITTER_RANGE);
      (Min(delayMin, upper), upper)
    else (0, Min(Max(0, task.jitterSeconds), JITTER_RANGE))
  }

  function ExtraMax(task: DueTask): int {
    if task.weight.Some? && task.weight.value < 100 then Min(MAX_WEIGHT_DELAY, (100 - task.weight.value) * 2) else 0
  }

  predicate Drawn(task: DueTask, d: Draw) {
    JitterBounds(task).0 <= d.jitter <= JitterBounds(task).1 && 0 <= d.extra <= ExtraMax(task)
  }

  function Jitter(task: DueTask, d: Draw): int {
    (if task.priority >= URGENT_PRIORITY_THRESHOLD then Min(d.jitter, URGENT_JITTER) else d.jitter) + d.extra
  }

  /** Both draws are possible, and a task is put off by at most seven minutes - by at most two minutes and
      three seconds when it is urgent. */
  lemma JitterBounded(task: DueTask, d: Draw)
    ensures JitterBounds(task).0 <= JitterBounds(task).1 && 0 <= ExtraMax(task)
    ensures Drawn(task, d) ==> 0 <= Jitter(task, d) <= JITTER_RANGE + MAX_WEIGHT_DELAY
    ensures Drawn(task, d) && task.priority >= URGENT_PRIORITY_THRESHOLD ==> Jitter(task, d) <= URGENT_JITTER + MAX_WEIGHT_DELAY
  {
  }

  /** Which delays are possible before the cut for urgent tasks: a task's own interval as far as it is one within five
      minutes, else up to its jitter; and two seconds more for every point its account's weight lacks of 100. */
  lemma DelaysExactly(task: DueTask, first: int, extra: int)
    ensures Drawn(task, Draw(first, extra)) <==>
              && 0 <= extra
              && extra <= (if task.weight.None? || task.weight.value >= 100 then 0
                           else if task.weight.value <= 40 then 120 else 200 - 2 * task.weight.value)
              && 0 <= first <= 300
              && if task.delayMin > 0 || task.delayMax > 0 then
                   && (first >= task.delayMin || (first == 300 && task.delayMin > 300))
                   && (first <= task.delayMax || first <= task.delayMin)
                 else first == 0 || first <= task.jitterSeconds
    ensures Jitter(task, Draw(first, extra)) == extra + if task.priority >= 100 && first > 3 then 3 else first
  {
  }

  // ---------------------------------------------------------------- producing

  /** Whether a producer that has read a score writes its own time. */
  predicate Writes(seen: Option<int>, at: int) {
    seen.None? || at < seen.value
  }

  datatype Command = ZScore(id: TaskId) | ZAdd(id: TaskId, score: int)

  /** The commands of one producer call, given the server's answers to its reads. */
  function Commands(now: int, tasks: seq<DueTask>, draws: seq<Draw>, seen: seq<Option<int>>): seq<Command>
    requires |draws| == |tasks| == |seen|
  {
    if tasks == [] then []
    else
      var at := now + Jitter(tasks[0], draws[0]);
      [ZScore(tasks[0].id)] + (if Writes(seen[0], at) then [ZAdd(tasks[0].id, at)] else [])
      + Commands(now, tasks[1..], draws[1..], seen[1..])
  }

  /** What a producer that nobody disturbs makes of the queue: scores only shrink. */
  function Propose(q: Queue, id: TaskId, at: int): Queue {
    if Writes(Lookup(q, id), at) then q[id := at] else q
  }

  function Enqueue(q: Queue, now: int, tasks: seq<DueTask>, draws: seq<Draw>): Queue
    requires |draws| == |tasks|
    decreases |tasks|
  {
    if tasks == [] then q
    else Enqueue(Propose(q, tasks[0].id, now + Jitter(tasks[0], draws[0])), now, tasks[1..], draws[1..])
  }

  // ---------------------------------------------------------------- claiming

  /** The order of the sorted set: by score, then by member. */
  predicate Before(q: Queue, a: TaskId, b: TaskId)
    requires a in q && b in q
  {
    q[a] < q[b] || (q[a] == q[b] && a <= b)
  }

  lemma {:induction false} FirstExists(q: Queue, ids: set<TaskId>)
    requires ids != {} && ids <= q.Keys
    ensures exists first :: first in ids && forall o | o in ids :: Before(q, first, o)
  {
    assert exists id :: id in ids by {
      assert (forall id :: id !in ids) ==> ids == {};
    }
    var id :| id in ids;
    var rest := ids - {id};
    if rest == {} {
      assert ids == {id};
      assert id in ids && forall o | o in ids :: Before(q, id, o);
    } else {
      FirstExists(q, rest);
      var f :| f in rest && forall o | o in rest :: Before(q, f, o);
      var first := if Before(q, f, id) then f else id;
      assert forall o | o in ids :: o == id || o in rest;
      assert first in ids && forall o | o in ids :: Before(q, first, o);
    }
  }

  function First(q: Queue, ids: set<TaskId>): (first: TaskId)
    requires ids != {} && ids <= q.Keys
    ensures first in ids && forall o | o in ids :: Before(q, first, o)
  {
    FirstExists(q, ids);
    var first :| first in ids && forall o | o in ids :: Before(q, first, o);
    first
  }

  /** The first `n` of `ids` in the order of the sorted set. */
  function Range(q: Queue, ids: set<TaskId>, n: nat): seq<TaskId>
    requires ids <= q.Keys
    decreases n
  {
    if n == 0 || ids == {} then []
    else var first := First(q, ids); [first] + Range(q, ids - {first}, n - 1)
  }

  function DueIds(q: Queue, now: int): set<TaskId> {
    set id | id in q && 0 <= q[id] <= now
  }

  /** The claim script. */
  function Claim(q: Queue, now: int, batch: nat): (Queue, seq<TaskId>) {
    var ids := Range(q, DueIds(q, now), batch);
    (q - (set id | id in ids), ids)
  }

  lemma {:induction false} RangeIsFirst(q: Queue, ids: set<TaskId>, n: nat)
    requires ids <= q.Keys
    ensures var r := Range(q, ids, n);
            && |r| == (if |ids| < n then |ids| else n)
            && (forall i | 0 <= i < |r| :: r[i] in ids)
            && (forall i, j | 0 <= i < j < |r| :: r[i] != r[j] && Before(q, r[i], r[j]))
            && (forall i, o | 0 <= i < |r| && o in ids && o !in r :: Before(q, r[i], o))
            && (|r| < n ==> forall o | o in ids :: o in r)
    decreases n
  {
    if n > 0 && ids != {} {
      var first := First(q, ids);
      RangeIsFirst(q, ids - {first}, n - 1);
    }
  }

  /** A claim returns the batch of smallest due scores, in order and without repetition, and removes
      exactly what it returns; while its batch has room it leaves nothing due. */
  lemma ClaimTakesSmallestDue(q: Queue, now: int, batch: nat)
    ensures var (q', ids) := Claim(q, now, batch);
            && (forall id :: id in ids <==> id in q && id !in q')
            && (forall id | id in q' :: id in q && q'[id] == q[id])
            && (forall i | 0 <= i < |ids| :: ids[i] in q && 0 <= q[ids[i]] <= now)
            && (forall i, j | 0 <= i < j < |ids| :: q[ids[i]] < q[ids[j]] || (q[ids[i]] == q[ids[j]] && ids[i] < ids[j]))
            && (forall i, o | 0 <= i < |ids| && o in q' && 0 <= q[o] <= now ::
                  q[ids[i]] < q[o] || (q[ids[i]] == q[o] && ids[i] < o))
            && |ids| <= batch && (|ids| < batch ==> forall id | id in q' :: !(0 <= q[id] <= now))
  {
    RangeIsFirst(q, DueIds(q, now), batch);
  }

  // ---------------------------------------------------------------- the producer and the consumer

  /** The producer's loop: `seen` is what the server answers to its reads while others use the queue. */
  method EnqueueDueTasks(now: int, tasks: seq<DueTask>, draws: seq<Draw>, seen: seq<Option<int>>) returns (commands: seq<Command>)
    requires |draws| == |tasks| == |seen| && forall i | 0 <= i < |tasks| :: Drawn(tasks[i], draws[i])
    ensures commands == Commands(now, tasks, draws, seen)
  {
    hide Drawn, JitterBounds, ExtraMax;
    commands := [];
    var i := 0;
    while i < |tasks|
      invariant i <= |tasks|
      invariant Commands(now, tasks, draws, seen) == commands + Commands(now, tasks[i..], draws[i..], seen[i..])
    {
      var task := tasks[i];
      var jitter := draws[i].jitter;
      if task.priority >= URGENT_PRIORITY_THRESHOLD {
        jitter := Min(jitter, URGENT_JITTER);
      }
      jitter := jitter + draws[i].extra;
      assert jitter == Jitter(task, draws[i]);
      hide Jitter, Drawn;
      var executionTime := now + jitter;
      assert tasks[i..][1..] == tasks[i + 1..] && draws[i..][1..] == draws[i + 1..] && seen[i..][1..] == seen[i + 1..];
      commands := commands + [ZScore(task.id)];
      var existing := seen[i];
      if existing.None? {
        commands := commands + [ZAdd(task.id, executionTime)];
      } else if executionTime < existing.value {
        commands := commands + [ZAdd(task.id, executionTime)];
      }
      i := i + 1;
    }
  }

  class Scheduler {
    var queue: Queue

    constructor ()
      ensures queue == map[]
    {
      queue := map[];
    }

    method GetPendingTasks(now: int, batch: nat) returns (ids: seq<TaskId>)
      modifies this
      ensures (queue, ids) == Claim(old(queue), now, batch)
    {
      ids := Range(queue, DueIds(queue, now), batch);
      queue := queue - set id | id in ids;
    }
  }

  // ---------------------------------------------------------------- whole runs

  /** A producer between its read and its write. */
  datatype Pending = Pending(id: TaskId, at: int, now: int, seen: Option<int>)

  /** The queue with its past: the execution times proposed for each id since it was last claimed, the
      time of the first of them, and how often each id was inserted anew and handed to a consumer; and the
      producers that are about to write. */
  datatype State = State(queue: Queue, proposed: map<TaskId, seq<int>>, firstAt: map<TaskId, int>,
                         inserts: map<TaskId, nat>, claims: map<TaskId, nat>, pending: map<int, Pending>)

  const EMPTY := State(map[], map[], map[], map[], map[], map[])

  /** A producer's read, its write, its end before the write; a consumer's claim. */
  datatype Step =
    | Scored(producer: int, task: DueTask, draw: Draw, now: int)
    | Added(producer: int)
    | Lost(producer: int)
    | Claimed(now: int, batch: nat)

  function Count(m: map<TaskId, nat>, id: TaskId): nat {
    if id in m then m[id] else 0
  }

  function Times(s: State, id: TaskId): seq<int> {
    if id in s.proposed then s.proposed[id] else []
  }

  function Next(s: State, step: Step): State {
    match step
    case Scored(p, task, draw, now) =>
      if p in s.pending then s
      else
        var at := now + Jitter(task, draw);
        var seen := Lookup(s.queue, task.id);
        if Writes(seen, at) then s.(pending := s.pending[p := Pending(task.id, at, now, seen)])
        else s.(proposed := s.proposed[task.id := Times(s, task.id) + [at]])
    case Added(p) =>
      if p !in s.pending then s
      else
        var w := s.pending[p];
        var s' := s.(queue := s.queue[w.id := w.at], pending := s.pending - {p});
        if w.id in s.queue then s'.(proposed := s.proposed[w.id := Times(s, w.id) + [w.at]])
        else
          s'.(proposed := s.proposed[w.id := [w.at]], firstAt := s.firstAt[w.id := w.now],
              inserts := s.inserts[w.id := Count(s.inserts, w.id) + 1])
    case Lost(p) => s.(pending := s.pending - {p})
    case Claimed(now, batch) =>
      var (queue, ids) := Claim(s.queue, now, batch);
      s.(queue := queue, claims := map id | id in s.claims.Keys + (set i | i in ids) ::
           Count(s.claims, id) + if id in ids then 1 else 0)
  }

  function Run(s: State, steps: seq<Step>): State
    decreases |steps|
  {
    if steps == [] then s else Run(Next(s, steps[0]), steps[1..])
  }

  // ---------------------------------------------------------------- one producer call as steps

  /** The loop's commands for one task and a producer's steps agree under any interference: it goes on to write
      exactly when the loop issues a write for the answer the read step got, and writes the same score. */
  lemma CommandsAreSteps(s: State, p: int, task: DueTask, draw: Draw, now: int)
    requires p !in s.pending
    ensures var s' := Next(s, Scored(p, task, draw, now));
            var written := if p in s'.pending then [ZAdd(s'.pending[p].id, s'.pending[p].at)] else [];
            Commands(now, [task], [draw], [Lookup(s.queue, task.id)]) == [ZScore(task.id)] + written
  {
    assert [task][1..] == [] && [draw][1..] == [] && [Lookup(s.queue, task.id)][1..] == [];
    var at := now + Jitter(task, draw);
    hide Jitter;
    assert Commands(now, [], [], []) == [];
    assert forall c: seq<Command> :: c + [] == c;
  }

  /** The reads and writes of producer `p` when nobody else uses the queue. */
  function ProducerSteps(p: int, q: Queue, now: int, tasks: seq<DueTask>, draws: seq<Draw>): seq<Step>
    requires |draws| == |tasks|
    decreases |tasks|
  {
    if tasks == [] then []
    else
      var at := now + Jitter(tasks[0], draws[0]);
      [Scored(p, tasks[0], draws[0], now)] + (if Writes(Lookup(q, tasks[0].id), at) then [Added(p)] else [])
      + ProducerSteps(p, Propose(q, tasks[0].id, at), now, tasks[1..], draws[1..])
  }

  lemma {:induction false} RunAppend(s: State, a: seq<Step>, b: seq<Step>)
    ensures Run(s, a + b) == Run(Run(s, a), b)
    decreases |a|
  {
    hide Next;
    if a == [] {
      assert a + b == b;
    } else {
      assert (a + b)[0] == a[0] && (a + b)[1..] == a[1..] + b;
      RunAppend(Next(s, a[0]), a[1..], b);
    }
  }

  lemma {:induction false} RunShort(s: State, a: Step, b: Step)
    ensures Run(s, [a]) == Next(s, a) && Run(s, [a, b]) == Next(Next(s, a), b)
  {
    hide Next;
    assert [a][1..] == [] && [a, b][1..] == [b] && [b][1..] == [];
    assert Run(Next(s, a), [b]) == Next(Next(s, a), b);
  }

  lemma ProposalSteps(p: int, s: State, task: DueTask, draw: Draw, now: int)
    requires p !in s.pending
    ensures var at := now + Jitter(task, draw);
            var s1 := Next(s, Scored(p, task, draw, now));
            var s' := if Writes(Lookup(s.queue, task.id), at) then Next(s1, Added(p)) else s1;
            s'.queue == Propose(s.queue, task.id, at) && s'.pending == s.pending
  {
    hide Jitter;
  }

  /** Alone, a producer call's reads and writes do what its loop is for. */
  lemma {:induction false} AloneEnqueues(p: int, s: State, now: int, tasks: seq<DueTask>, draws: seq<Draw>)
    requires |draws| == |tasks| && p !in s.pending
    ensures var s' := Run(s, ProducerSteps(p, s.queue, now, tasks, draws));
            s'.queue == Enqueue(s.queue, now, tasks, draws) && s'.pending == s.pending
    decreases |tasks|
  {
    if tasks == [] {
      return;
    }
    var at := now + Jitter(tasks[0], draws[0]);
    var read, q := Scored(p, tasks[0], draws[0], now), Propose(s.queue, tasks[0].id, at);
    var rest := ProducerSteps(p, q, now, tasks[1..], draws[1..]);
    var head := if Writes(Lookup(s.queue, tasks[0].id), at) then [read, Added(p)] else [read];
    assert ProducerSteps(p, s.queue, now, tasks, draws) == head + rest by {
      assert [read] + [Added(p)] == [read, Added(p)] && [read] + [] == [read];
    }
    assert Enqueue(s.queue, now, tasks, draws) == Enqueue(q, now, tasks[1..], draws[1..]);
    ProposalSteps(p, s, tasks[0], draws[0], now);
    RunShort(s, read, Added(p));
    RunAppend(s, head, rest);
    hide Next, Run, Jitter, Propose, Enqueue, ProducerSteps, Writes;
    AloneEnqueues(p, Run(s, head), now, tasks[1..], draws[1..]);
  }

  // ---------------------------------------------------------------- what every run keeps

  ghost predicate IsMin(score: int, times: seq<int>) {
    score in times && forall i | 0 <= i < |times| :: score <= times[i]
  }

  predicate Legal(step: Step) {
    step.Scored? ==> Drawn(step.task, step.draw)
  }

  ghost predicate Counted(s: State) {
    forall id :: Count(s.claims, id) + (if id in s.queue then 1 else 0) == Count(s.inserts, id)
  }

  ghost predicate Least(s: State) {
    && (forall id | id in s.queue ::
          && id in s.proposed && IsMin(s.queue[id], s.proposed[id])
          && id in s.firstAt && s.proposed[id][0] <= s.firstAt[id] + JITTER_RANGE + MAX_WEIGHT_DELAY)
    && (forall p | p in s.pending :: s.pending[p].at <= s.pending[p].now + JITTER_RANGE + MAX_WEIGHT_DELAY)
  }

  /** A write over a smaller score. */
  predicate Raises(s: State, step: Step) {
    step.Added? && step.producer in s.pending
    && s.pending[step.producer].id in s.queue && s.queue[s.pending[step.producer].id] < s.pending[step.producer].at
  }

  lemma CountedNext(s: State, step: Step)
    requires Counted(s)
    ensures Counted(Next(s, step))
  {
    if step.Claimed? {
      ClaimTakesSmallestDue(s.queue, step.now, step.batch);
    }
  }

  lemma MinMore(score: int, times: seq<int>, at: int)
    requires IsMin(score, times)
    ensures (times + [at])[0] == times[0]
    ensures score <= at ==> IsMin(score, times + [at])
    ensures IsMin(at, times + [at]) <==> at <= score
  {
    assert (times + [at])[|times|] == at;
    assert forall t | t in times :: t in times + [at];
    var k :| 0 <= k < |times| && times[k] == score;
    assert (times + [at])[k] == score;
    assert forall i | 0 <= i < |times| :: (times + [at])[i] == times[i];
  }

  /** A step keeps every queued score the least of its proposals exactly unless it writes over a smaller one. */
  lemma LeastNextExactly(s: State, step: Step)
    requires Least(s) && Legal(step)
    ensures Least(Next(s, step)) <==> !Raises(s, step)
  {
    match step {
      case Scored(p, task, draw, now) =>
        JitterBounded(task, draw);
        if task.id in s.queue {
          MinMore(s.queue[task.id], s.proposed[task.id], now + Jitter(task, draw));
        }
      case Added(p) =>
        if p in s.pending && s.pending[p].id in s.queue {
          var w := s.pending[p];
          MinMore(s.queue[w.id], s.proposed[w.id], w.at);
          var s' := Next(s, step);
          assert s'.queue[w.id] == w.at && s'.proposed[w.id] == s.proposed[w.id] + [w.at];
        }
      case Lost(_) =>
      case Claimed(now, batch) => ClaimTakesSmallestDue(s.queue, now, batch);
    }
  }

  ghost predicate NeverRaises(s: State, steps: seq<Step>)
    decreases |steps|
  {
    steps != [] ==> !Raises(s, steps[0]) && NeverRaises(Next(s, steps[0]), steps[1..])
  }

  lemma {:induction false} RunCounted(s: State, steps: seq<Step>)
    requires Counted(s)
    ensures Counted(Run(s, steps))
    decreases |steps|
  {
    hide Counted, Next;
    if steps != [] {
      CountedNext(s, steps[0]);
      RunCounted(Next(s, steps[0]), steps[1..]);
    }
  }

  lemma {:induction false} RunLeast(s: State, steps: seq<Step>)
    requires Least(s) && NeverRaises(s, steps) && forall i | 0 <= i < |steps| :: Legal(steps[i])
    ensures Least(Run(s, steps))
    decreases |steps|
  {
    hide Least, Next, Legal, Raises;
    if steps != [] {
      LeastNextExactly(s, steps[0]);
      RunLeast(Next(s, steps[0]), steps[1..]);
    }
  }

  /** In every run of any number of producers and consumers every hand-out of a task to a consumer uses up one
      insertion, so none reaches two consumers without being inserted anew in between. */
  lemma ClaimsUseUpInsertions(steps: seq<Step>, id: TaskId)
    ensures var s := Run(EMPTY, steps);
            Count(s.inserts, id) == Count(s.claims, id) + (if id in s.queue then 1 else 0)
  {
    RunCounted(EMPTY, steps);
    hide Run;
  }

  /** In every run in which no write meets a smaller score, a queued task's score is the least execution time
      proposed since it was last claimed and at most seven minutes after the first of those proposals. */
  lemma ScoreIsLeastProposed(steps: seq<Step>, id: TaskId)
    requires NeverRaises(EMPTY, steps) && forall i | 0 <= i < |steps| :: Legal(steps[i])
    ensures var s := Run(EMPTY, steps);
            id in s.queue ==>
              && id in s.proposed && IsMin(s.queue[id], s.proposed[id])
              && id in s.firstAt && s.queue[id] <= s.firstAt[id] + 300 + 120
  {
    assert Least(EMPTY);
    RunLeast(EMPTY, steps);
    hide Run;
  }

  // ---------------------------------------------------------------- one producer at a time

  /** No producer reads a task's score while another is about to write it. */
  predicate Solo(s: State, step: Step) {
    step.Scored? ==> forall p | p in s.pending :: s.pending[p].id != step.task.id
  }

  ghost predicate SoloRun(s: State, steps: seq<Step>)
    decreases |steps|
  {
    steps != [] ==> Solo(s, steps[0]) && SoloRun(Next(s, steps[0]), steps[1..])
  }

  /** What a producer has read still holds, unless the task was claimed meanwhile. */
  ghost predicate StillSeen(s: State) {
    && (forall p | p in s.pending ::
          && Writes(s.pending[p].seen, s.pending[p].at)
          && (s.pending[p].id in s.queue ==> s.pending[p].seen == Some(s.queue[s.pending[p].id])))
    && (forall p, r | p in s.pending && r in s.pending && s.pending[p].id == s.pending[r].id :: p == r)
  }

  lemma SoloNext(s: State, step: Step)
    requires StillSeen(s) && Solo(s, step)
    ensures StillSeen(Next(s, step)) && !Raises(s, step)
  {
    if step.Claimed? {
      ClaimTakesSmallestDue(s.queue, step.now, step.batch);
    }
  }

  lemma {:induction false} SoloNeverRaises(s: State, steps: seq<Step>)
    requires StillSeen(s) && SoloRun(s, steps)
    ensures NeverRaises(s, steps)
    decreases |steps|
  {
    hide StillSeen, Solo, Raises, Next;
    if steps != [] {
      SoloNext(s, steps[0]);
      SoloNeverRaises(Next(s, steps[0]), steps[1..]);
    }
  }

  /** With one producer at a time, whatever consumers claim between its reads and its writes, every queued
      score is the least time proposed since the last claim, and in time. */
  lemma OneProducerKeepsLeast(steps: seq<Step>, id: TaskId)
    requires SoloRun(EMPTY, steps) && forall i | 0 <= i < |steps| :: Legal(steps[i])
    ensures var s := Run(EMPTY, steps);
            id in s.queue ==>
              && id in s.proposed && IsMin(s.queue[id], s.proposed[id])
              && id in s.firstAt && s.queue[id] <= s.firstAt[id] + 300 + 120
  {
    SoloNeverRaises(EMPTY, steps);
    ScoreIsLeastProposed(steps, id);
  }

  const SLOW := DueTask(7, 0, 300, 0, 0, None)

  lemma Overtaken()
    ensures var s2 := Next(Next(EMPTY, Scored(0, SLOW, Draw(100, 0), 0)), Scored(1, SLOW, Draw(300, 0), 0));
            var s4 := Next(Next(s2, Added(0)), Added(1));
            s4.queue == map[7 := 300] && s4.proposed == map[7 := [100, 300]]
  {
    var s1 := Next(EMPTY, Scored(0, SLOW, Draw(100, 0), 0));
    var s2 := Next(s1, Scored(1, SLOW, Draw(300, 0), 0));
    assert s1.pending == map[0 := Pending(7, 100, 0, None)] && s1.queue == map[];
    assert s2.pending == map[0 := Pending(7, 100, 0, None), 1 := Pending(7, 300, 0, None)] && s2.queue == map[];
    hide Jitter, Claim;
    var s3 := Next(s2, Added(0));
    assert s3.queue == map[7 := 100] && s3.proposed == map[7 := [100]] && s3.pending == map[1 := Pending(7, 300, 0, None)];
    assert [100] + [300] == [100, 300];
  }

  /** Two producers that both find no score raise it: the first writes 100, the second 300. */
  lemma {:induction false} TwoProducersRaise()
    ensures exists steps: seq<Step> ::
              && (forall i | 0 <= i < |steps| :: Legal(steps[i]))
              && Run(EMPTY, steps).queue == map[7 := 300] && Run(EMPTY, steps).proposed == map[7 := [100, 300]]
  {
    var r0, r1, w0, w1 := Scored(0, SLOW, Draw(100, 0), 0), Scored(1, SLOW, Draw(300, 0), 0), Added(0), Added(1);
    Overtaken();
    assert Legal(r0) && Legal(r1) && Legal(w0) && Legal(w1);
    hide Next, Legal;
    RunShort(EMPTY, r0, r1);
    RunShort(Next(Next(EMPTY, r0), r1), w0, w1);
    RunAppend(EMPTY, [r0, r1], [w0, w1]);
    hide Run;
    var steps := [r0, r1] + [w0, w1];
    assert forall i | 0 <= i < |steps| :: Legal(steps[i]);
  }
}
