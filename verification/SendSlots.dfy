/**
 The rate limiter's send slots: two plain expiring locks, one per account and one per peer, taken in that
 order in a retry loop; when the peer lock is taken the account lock is deleted again.  The locks carry no
 owner, so a delete removes whatever is there.

 Every Redis command is one step, and the commands of any number of callers interleave freely.  Times are
 milliseconds.
 */
module SendSlots {
  import opened Common

  const ACCOUNT_LOCK_TTL := 1000
  const PEER_LOCK_TTL := 2000

  datatype Key = AccountKey(account: int) | PeerKey(peer: int)

  function Ttl(key: Key): int {
    if key.AccountKey? then ACCOUNT_LOCK_TTL else PEER_LOCK_TTL
  }

  /** When a lock was set, and whether its setter has deleted it since. */
  datatype Acquisition = Acquisition(key: Key, at: int, released: bool)

  /** Where a caller is in the loop; the numbers index its acquisitions. */
  datatype Phase = Trying | HasAccount(index: nat) | BackingOff(index: nat)

  datatype Call = Call(account: int, peer: int, start: int, phase: Phase)

  /** A return of the loop, with the acquisitions it was granted on. */
  datatype Slot = Slot(account: int, peer: int, accountIndex: nat, peerIndex: nat)

  datatype State = State(
    locks: map<Key, int>, calls: map<int, Call>, acquired: seq<Acquisition>, slots: seq<Slot>, now: int)

  datatype Step =
    | Arrive(caller: int, account: int, peer: int, at: int)
    | TryAccount(caller: int, at: int)
    | TryPeer(caller: int, at: int)
    | ReleaseAccount(caller: int, at: int)
    | GiveUp(caller: int, maxWait: int, at: int)

  predicate Live(locks: map<Key, int>, key: Key, now: int) {
    key in locks && now < locks[key]
  }

  /** SET key NX EX ttl, with its trace. */
  function Acquire(s: State, key: Key, at: int): State {
    s.(locks := s.locks[key := at + Ttl(key)], acquired := s.acquired + [Acquisition(key, at, false)], now := at)
  }

  function SetPhase(s: State, caller: int, phase: Phase): State
    requires caller in s.calls
  {
    s.(calls := s.calls[caller := s.calls[caller].(phase := phase)])
  }

  /** A command that is not the caller's next one is no step. */
  function Next(s: State, step: Step): State {
    match step
    case Arrive(w, account, peer, at) =>
      if w in s.calls then s.(now := at) else s.(calls := s.calls[w := Call(account, peer, at, Trying)], now := at)
    case TryAccount(w, at) =>
      if w !in s.calls || !s.calls[w].phase.Trying? || Live(s.locks, AccountKey(s.calls[w].account), at) then s.(now := at)
      else SetPhase(Acquire(s, AccountKey(s.calls[w].account), at), w, HasAccount(|s.acquired|))
    case TryPeer(w, at) =>
      if w !in s.calls || !s.calls[w].phase.HasAccount? then s.(now := at)
      else
        var call := s.calls[w];
        if Live(s.locks, PeerKey(call.peer), at) then SetPhase(s.(now := at), w, BackingOff(call.phase.index))
        else
          Acquire(s, PeerKey(call.peer), at).(
            calls := s.calls - {w},
            slots := s.slots + [Slot(call.account, call.peer, call.phase.index, |s.acquired|)])
    case ReleaseAccount(w, at) =>
      if w !in s.calls || !s.calls[w].phase.BackingOff? || s.calls[w].phase.index >= |s.acquired| then s.(now := at)
      else
        var i := s.calls[w].phase.index;
        SetPhase(s.(locks := s.locks - {AccountKey(s.calls[w].account)},
                    acquired := s.acquired[i := s.acquired[i].(released := true)], now := at), w, Trying)
    case GiveUp(w, maxWait, at) =>
      if w in s.calls && s.calls[w].phase.Trying? && at - s.calls[w].start >= maxWait
      then s.(calls := s.calls - {w}, now := at) else s.(now := at)
  }

  const START := State(map[], map[], [], [], 0)

  function Run(s: State, steps: seq<Step>): State
    decreases |steps|
  {
    if steps == [] then s else Run(Next(s, steps[0]), steps[1..])
  }

  predicate IsRelease(s: State, step: Step) {
    step.ReleaseAccount? && step.caller in s.calls && s.calls[step.caller].phase.BackingOff?
    && s.calls[step.caller].phase.index < |s.acquired|
  }

  /** A release after the caller's own lock has expired, with a live lock on the key all the same. */
  predicate HitsOther(s: State, step: Step) {
    IsRelease(s, step)
    && s.acquired[s.calls[step.caller].phase.index].at + ACCOUNT_LOCK_TTL <= step.at
    && Live(s.locks, AccountKey(s.calls[step.caller].account), step.at)
  }

  /** The clock never goes back, and no release comes so late that it meets a lock set since. */
  predicate Prompt(s: State, step: Step) {
    s.now <= step.at && !HitsOther(s, step)
  }

  ghost predicate PromptRun(s: State, steps: seq<Step>)
    decreases |steps|
  {
    steps != [] ==> Prompt(s, steps[0]) && PromptRun(Next(s, steps[0]), steps[1..])
  }

  // ---------------------------------------------------------------- what a step does to the locks

  ghost predicate Busy(s: State, key: Key, at: int) {
    key in s.locks && at < s.locks[key]
  }

  /** The lock a step sets: the account's by a caller that tries, then the peer's, each if it is free. */
  ghost function Sets(s: State, step: Step): Option<Key> {
    if step.caller !in s.calls then None
    else
      var call := s.calls[step.caller];
      if step.TryAccount? && call.phase.Trying? && !Busy(s, AccountKey(call.account), step.at) then Some(AccountKey(call.account))
      else if step.TryPeer? && call.phase.HasAccount? && !Busy(s, PeerKey(call.peer), step.at) then Some(PeerKey(call.peer))
      else None
  }

  /** The lock a step deletes: the account's, by a caller that found the peer's taken. */
  ghost function TakenBack(s: State, step: Step): Option<Key> {
    if step.ReleaseAccount? && step.caller in s.calls && s.calls[step.caller].phase.BackingOff?
    then Some(AccountKey(s.calls[step.caller].account)) else None
  }

  /** An account's lock holds for a second and a peer's for two from when it is set, unless it is deleted; a step
      touches no other lock and no other caller. A caller comes with its account and peer and the time, and gives up
      exactly between two tries, once it has waited long enough. */
  lemma LocksExactly(s: State, step: Step, key: Key, at: int)
    requires step.at <= at
    requires forall w | w in s.calls && !s.calls[w].phase.Trying? :: s.calls[w].phase.index < |s.acquired|
    ensures var s' := Next(s, step);
            && s'.now == step.at
            && (Busy(s', key, at) <==>
                  if Sets(s, step) == Some(key) then at < step.at + (if key.AccountKey? then 1000 else 2000)
                  else TakenBack(s, step) != Some(key) && Busy(s, key, at))
            && (forall w | w != step.caller :: (w in s'.calls <==> w in s.calls) && (w in s.calls ==> s'.calls[w] == s.calls[w]))
            && (step.Arrive? && step.caller !in s.calls ==>
                  step.caller in s'.calls && s'.calls[step.caller] == Call(step.account, step.peer, step.at, Trying))
            && (step.GiveUp? && step.caller in s.calls ==>
                  (step.caller !in s'.calls <==> s.calls[step.caller].phase.Trying? && step.at - s.calls[step.caller].start >= step.maxWait))
            && (step.caller in s.calls && step.caller in s'.calls ==>
                  s'.calls[step.caller] == s.calls[step.caller].(phase := s'.calls[step.caller].phase))
  {
  }

  // ---------------------------------------------------------------- one caller's loop

  /** A Redis command of the loop and the server's answer. */
  datatype Command = SetAccount(ok: bool) | SetPeer(ok: bool) | DeleteAccount

  datatype Place = AtTop | WithAccount | MustDelete | Returned

  /** The caller's automaton: the places are the phases of a `Call`, and `Returned` is the granted slot. */
  function Move(place: Place, c: Command): Option<Place> {
    match (place, c)
    case (AtTop, SetAccount(ok)) => Some(if ok then WithAccount else AtTop)
    case (WithAccount, SetPeer(ok)) => Some(if ok then Returned else MustDelete)
    case (MustDelete, DeleteAccount) => Some(AtTop)
    case _ => None
  }

  /** Where the commands lead, if each is the next one at its place. */
  function Follow(commands: seq<Command>): Option<Place> {
    if commands == [] then Some(AtTop)
    else
      var before := Follow(commands[..|commands| - 1]);
      if before.None? then None else Move(before.value, commands[|commands| - 1])
  }

  lemma FollowOne(commands: seq<Command>, c: Command)
    requires Follow(commands).Some?
    ensures Follow(commands + [c]) == Move(Follow(commands).value, c)
  {
    assert (commands + [c])[..|commands|] == commands;
  }

  function PlaceOf(phase: Phase): Place {
    match phase
    case Trying => AtTop
    case HasAccount(_) => WithAccount
    case BackingOff(_) => MustDelete
  }

  /** The command a step is, with the server's answer. */
  function CommandOf(s: State, step: Step): Option<Command> {
    if step.caller !in s.calls then None
    else
      var call := s.calls[step.caller];
      match step
      case TryAccount(_, at) => Some(SetAccount(!Live(s.locks, AccountKey(call.account), at)))
      case TryPeer(_, at) => Some(SetPeer(!Live(s.locks, PeerKey(call.peer), at)))
      case ReleaseAccount(_, _) => Some(DeleteAccount)
      case _ => None
  }

  /** The automaton the loop follows and the steps of many callers agree: a command moves its caller from
      place to place as the automaton does, to `Returned` exactly with a new slot for its account and peer,
      and a command out of place is no step. */
  lemma CommandsMoveCallers(s: State, step: Step)
    requires CommandOf(s, step).Some?
    requires s.calls[step.caller].phase.Trying? || s.calls[step.caller].phase.index < |s.acquired|
    ensures var s' := Next(s, step);
            match Move(PlaceOf(s.calls[step.caller].phase), CommandOf(s, step).value)
            case None => s' == s.(now := step.at)
            case Some(Returned) =>
              step.caller !in s'.calls && |s'.slots| == |s.slots| + 1
              && s'.slots[|s.slots|].account == s.calls[step.caller].account && s'.slots[|s.slots|].peer == s.calls[step.caller].peer
            case Some(place) => step.caller in s'.calls && PlaceOf(s'.calls[step.caller].phase) == place && s'.slots == s.slots
  {
  }

  /** What the server and the clock answer in one turn of the loop. */
  datatype Turn = Turn(accountFree: bool, peerFree: bool, clock: int)

  /** No slot in the first `n` turns, and then the waiting time was over (or the answers were). */
  ghost predicate GivesUpAfter(start: int, maxWait: int, turns: seq<Turn>, n: int) {
    && 0 <= n <= |turns|
    && (forall k | 0 <= k < n :: !(turns[k].accountFree && turns[k].peerFree))
    && (n < |turns| ==> n > 0 && turns[n - 1].clock - start >= maxWait)
  }

  /** The loop, for as many turns as `turns` has answers. It returns only with both locks set; in every other
      turn the account lock is deleted again if it was set, so a caller that gives up holds nothing. */
  method WaitForSlot(start: int, maxWait: int, turns: seq<Turn>) returns (granted: Option<nat>, commands: seq<Command>)
    ensures Follow(commands) == Some(if granted.Some? then Returned else AtTop)
    ensures granted.Some? ==>
              && granted.value < |turns| && turns[granted.value].accountFree && turns[granted.value].peerFree
              && (forall k | 0 <= k < granted.value ::
                    !(turns[k].accountFree && turns[k].peerFree) && turns[k].clock - start < maxWait)
    ensures granted.None? && 0 < maxWait ==> exists n :: GivesUpAfter(start, maxWait, turns, n)
  {
    commands := [];
    var waited, k := 0, 0;
    while waited < maxWait && k < |turns|
      invariant k <= |turns| && Follow(commands) == Some(AtTop)
      invariant waited == if k == 0 then 0 else turns[k - 1].clock - start
      invariant forall j | 0 <= j < k :: !(turns[j].accountFree && turns[j].peerFree)
      invariant forall j | 0 <= j < k - 1 :: turns[j].clock - start < maxWait
      decreases |turns| - k
    {
      FollowOne(commands, SetAccount(turns[k].accountFree));
      commands := commands + [SetAccount(turns[k].accountFree)];
      if !turns[k].accountFree {
        waited := turns[k].clock - start;
        k := k + 1;
        continue;
      }
      FollowOne(commands, SetPeer(turns[k].peerFree));
      commands := commands + [SetPeer(turns[k].peerFree)];
      if !turns[k].peerFree {
        FollowOne(commands, DeleteAccount);
        commands := commands + [DeleteAccount];
        waited := turns[k].clock - start;
        k := k + 1;
        continue;
      }
      return Some(k), commands;
    }
    assert 0 < maxWait ==> GivesUpAfter(start, maxWait, turns, k);
    granted := None;
  }

  // ---------------------------------------------------------------- the invariant

  predicate Kept(acquired: seq<Acquisition>, i: int) {
    0 <= i < |acquired| && !acquired[i].released
  }

  /** An acquisition not taken back owns its key until the lock expires. */
  ghost predicate LocksOwned(locks: map<Key, int>, acquired: seq<Acquisition>, now: int) {
    forall i | Kept(acquired, i) ::
      acquired[i].at <= now
      && (now < acquired[i].at + Ttl(acquired[i].key) ==>
            acquired[i].key in locks && locks[acquired[i].key] == acquired[i].at + Ttl(acquired[i].key))
  }

  /** Acquisitions of one key that were not taken back lie a full lock time apart. */
  ghost predicate Apart(acquired: seq<Acquisition>) {
    forall i, j | Kept(acquired, i) && Kept(acquired, j) && i < j && acquired[i].key == acquired[j].key ::
      acquired[i].at + Ttl(acquired[i].key) <= acquired[j].at
  }

  ghost predicate CallsFit(s: State) {
    && (forall w | w in s.calls && !s.calls[w].phase.Trying? ::
          Kept(s.acquired, s.calls[w].phase.index) && s.acquired[s.calls[w].phase.index].key == AccountKey(s.calls[w].account))
    && (forall v, w | v in s.calls && w in s.calls && !s.calls[v].phase.Trying? && !s.calls[w].phase.Trying?
                     && s.calls[v].phase.index == s.calls[w].phase.index :: v == w)
  }

  ghost predicate SlotsFit(s: State) {
    && (forall n | 0 <= n < |s.slots| ::
          && Kept(s.acquired, s.slots[n].accountIndex) && Kept(s.acquired, s.slots[n].peerIndex)
          && s.acquired[s.slots[n].accountIndex].key == AccountKey(s.slots[n].account)
          && s.acquired[s.slots[n].peerIndex].key == PeerKey(s.slots[n].peer)
          && s.acquired[s.slots[n].accountIndex].at <= s.acquired[s.slots[n].peerIndex].at)
    && (forall m, n | 0 <= m < n < |s.slots| ::
          s.slots[m].accountIndex != s.slots[n].accountIndex && s.slots[m].peerIndex != s.slots[n].peerIndex)
    && (forall n, w | 0 <= n < |s.slots| && w in s.calls && !s.calls[w].phase.Trying? ::
          s.calls[w].phase.index != s.slots[n].accountIndex)
  }

  ghost predicate OwnedBy(acquired: seq<Acquisition>, i: int, key: Key, expiry: int) {
    Kept(acquired, i) && acquired[i].key == key && expiry == acquired[i].at + Ttl(key)
  }

  /** A live lock is that of an acquisition not taken back. */
  ghost predicate LiveOwned(locks: map<Key, int>, acquired: seq<Acquisition>, now: int) {
    forall key | Live(locks, key, now) :: exists i :: OwnedBy(acquired, i, key, locks[key])
  }

  ghost predicate Inv(s: State) {
    LiveOwned(s.locks, s.acquired, s.now) && LocksOwned(s.locks, s.acquired, s.now) && Apart(s.acquired) && CallsFit(s) && SlotsFit(s)
  }

  // ---------------------------------------------------------------- every step keeps it

  lemma AcquireKeeps(s: State, key: Key, at: int)
    requires Inv(s) && s.now <= at && !Live(s.locks, key, at)
    ensures Inv(Acquire(s, key, at))
  {
    var s' := Acquire(s, key, at);
    assert forall i | 0 <= i < |s.acquired| :: s'.acquired[i] == s.acquired[i];
    assert CallsFit(s') && SlotsFit(s') by {
      hide LocksOwned, Apart, LiveOwned;
    }
    hide CallsFit, SlotsFit;
    LocksAfterAcquire(s.locks, s.acquired, s.now, key, at);
    LiveAfterAcquire(s.locks, s.acquired, s.now, key, at);
    hide LocksOwned, Apart, LiveOwned;
  }

  lemma LocksAfterAcquire(locks: map<Key, int>, acquired: seq<Acquisition>, now: int, key: Key, at: int)
    requires LocksOwned(locks, acquired, now) && Apart(acquired) && now <= at && !Live(locks, key, at)
    ensures var acquired' := acquired + [Acquisition(key, at, false)];
            LocksOwned(locks[key := at + Ttl(key)], acquired', at) && Apart(acquired')
  {
    var acquired' := acquired + [Acquisition(key, at, false)];
    assert forall i | Kept(acquired', i) && i < |acquired| :: Kept(acquired, i) && acquired'[i] == acquired[i];
    assert forall i | Kept(acquired, i) && acquired[i].key == key :: acquired[i].at + Ttl(key) <= at;
  }

  lemma LiveAfterAcquire(locks: map<Key, int>, acquired: seq<Acquisition>, now: int, key: Key, at: int)
    requires LiveOwned(locks, acquired, now) && now <= at
    ensures LiveOwned(locks[key := at + Ttl(key)], acquired + [Acquisition(key, at, false)], at)
  {
    var locks', acquired' := locks[key := at + Ttl(key)], acquired + [Acquisition(key, at, false)];
    forall k | Live(locks', k, at) ensures exists i :: OwnedBy(acquired', i, k, locks'[k]) {
      if k == key {
        assert OwnedBy(acquired', |acquired|, k, locks'[k]);
      } else {
        assert Live(locks, k, now);
        var i :| OwnedBy(acquired, i, k, locks[k]);
        assert OwnedBy(acquired', i, k, locks'[k]);
      }
    }
  }

  /** A release leaves no lock on the key, so an acquisition taken back owns nothing. */
  lemma LiveAfterRelease(locks: map<Key, int>, acquired: seq<Acquisition>, now: int, i: nat, at: int)
    requires LiveOwned(locks, acquired, now) && now <= at && i < |acquired|
    ensures LiveOwned(locks - {acquired[i].key}, acquired[i := acquired[i].(released := true)], at)
  {
    var locks', acquired' := locks - {acquired[i].key}, acquired[i := acquired[i].(released := true)];
    forall k | Live(locks', k, at) ensures exists j :: OwnedBy(acquired', j, k, locks'[k]) {
      assert Live(locks, k, now);
      var j :| OwnedBy(acquired, j, k, locks[k]);
      assert OwnedBy(acquired', j, k, locks'[k]);
    }
  }

  lemma TickKeeps(s: State, at: int)
    requires Inv(s) && s.now <= at
    ensures Inv(s.(now := at))
  {
    hide Apart;
  }

  lemma TryAccountKeeps(s: State, w: int, at: int)
    requires Inv(s) && s.now <= at
    ensures Inv(Next(s, TryAccount(w, at)))
  {
    if w !in s.calls || !s.calls[w].phase.Trying? || Live(s.locks, AccountKey(s.calls[w].account), at) {
      TickKeeps(s, at);
      return;
    }
    var n := |s.acquired|;
    AcquireKeeps(s, AccountKey(s.calls[w].account), at);
    hide LocksOwned, Apart, LiveOwned;
    assert forall v | v in s.calls && !s.calls[v].phase.Trying? :: s.calls[v].phase.index != n;
    assert forall m | 0 <= m < |s.slots| :: s.slots[m].accountIndex != n;
    AccountTaken(Acquire(s, AccountKey(s.calls[w].account), at), w, n);
    hide CallsFit, SlotsFit;
  }

  lemma AccountTaken(s: State, w: int, j: nat)
    requires CallsFit(s) && SlotsFit(s) && w in s.calls && s.calls[w].phase.Trying?
    requires Kept(s.acquired, j) && s.acquired[j].key == AccountKey(s.calls[w].account)
    requires forall v | v in s.calls && !s.calls[v].phase.Trying? :: s.calls[v].phase.index != j
    requires forall m | 0 <= m < |s.slots| :: s.slots[m].accountIndex != j
    ensures CallsFit(SetPhase(s, w, HasAccount(j))) && SlotsFit(SetPhase(s, w, HasAccount(j)))
  {
  }

  lemma TryPeerKeeps(s: State, w: int, at: int)
    requires Inv(s) && s.now <= at
    ensures Inv(Next(s, TryPeer(w, at)))
  {
    TickKeeps(s, at);
    if w !in s.calls || !s.calls[w].phase.HasAccount? {
      return;
    }
    var call := s.calls[w];
    if Live(s.locks, PeerKey(call.peer), at) {
      hide LocksOwned, Apart, LiveOwned;
      return;
    }
    assert s.acquired[call.phase.index].at <= at;
    AcquireKeeps(s, PeerKey(call.peer), at);
    hide LocksOwned, Apart, LiveOwned;
    SlotGranted(Acquire(s, PeerKey(call.peer), at), w, |s.acquired|);
  }

  lemma SlotGranted(s: State, w: int, j: nat)
    requires CallsFit(s) && SlotsFit(s) && w in s.calls && s.calls[w].phase.HasAccount?
    requires Kept(s.acquired, j) && s.acquired[j].key == PeerKey(s.calls[w].peer)
    requires s.acquired[s.calls[w].phase.index].at <= s.acquired[j].at
    requires forall n | 0 <= n < |s.slots| :: s.slots[n].peerIndex != j
    ensures var call := s.calls[w];
            var s' := s.(calls := s.calls - {w}, slots := s.slots + [Slot(call.account, call.peer, call.phase.index, j)]);
            CallsFit(s') && SlotsFit(s')
  {
  }

  lemma {:induction false} ReleaseAccountKeeps(s: State, w: int, at: int)
    requires Inv(s) && Prompt(s, ReleaseAccount(w, at))
    ensures Inv(Next(s, ReleaseAccount(w, at)))
  {
    if w !in s.calls || !s.calls[w].phase.BackingOff? || s.calls[w].phase.index >= |s.acquired| {
      TickKeeps(s, at);
      return;
    }
    var i, key := s.calls[w].phase.index, AccountKey(s.calls[w].account);
    var acquired := s.acquired[i := s.acquired[i].(released := true)];
    assert Kept(s.acquired, i) && s.acquired[i].key == key;
    LocksAfterRelease(s.locks, s.acquired, s.now, i, at);
    LiveAfterRelease(s.locks, s.acquired, s.now, i, at);
    hide LocksOwned, Apart, LiveOwned;
    assert forall j | Kept(acquired, j) :: Kept(s.acquired, j) && j != i && acquired[j] == s.acquired[j];
  }

  lemma LocksAfterRelease(locks: map<Key, int>, acquired: seq<Acquisition>, now: int, i: nat, at: int)
    requires LocksOwned(locks, acquired, now) && Apart(acquired) && now <= at && Kept(acquired, i)
    requires at < acquired[i].at + Ttl(acquired[i].key) || !Live(locks, acquired[i].key, at)
    ensures var acquired' := acquired[i := acquired[i].(released := true)];
            LocksOwned(locks - {acquired[i].key}, acquired', at) && Apart(acquired')
  {
    var key, acquired' := acquired[i].key, acquired[i := acquired[i].(released := true)];
    assert forall j | Kept(acquired', j) :: Kept(acquired, j) && j != i && acquired'[j] == acquired[j];
    assert forall j | Kept(acquired', j) && acquired[j].key == key :: acquired[j].at + Ttl(key) <= at;
  }

  lemma {:induction false} NextKeeps(s: State, step: Step)
    requires Inv(s) && Prompt(s, step)
    ensures Inv(Next(s, step))
  {
    match step {
      case Arrive(_, _, _, _) => ComingAndGoingKeeps(s, step);
      case TryAccount(w, at) => TryAccountKeeps(s, w, at);
      case TryPeer(w, at) => TryPeerKeeps(s, w, at);
      case ReleaseAccount(w, at) => ReleaseAccountKeeps(s, w, at);
      case GiveUp(_, _, _) => ComingAndGoingKeeps(s, step);
    }
    hide Inv, Next;
  }

  lemma ComingAndGoingKeeps(s: State, step: Step)
    requires Inv(s) && s.now <= step.at && (step.Arrive? || step.GiveUp?)
    ensures Inv(Next(s, step))
  {
    TickKeeps(s, step.at);
    hide LocksOwned, Apart, LiveOwned;
  }

  lemma {:induction false} RunKeeps(s: State, steps: seq<Step>)
    requires Inv(s) && PromptRun(s, steps)
    ensures Inv(Run(s, steps))
    decreases |steps|
  {
    hide Inv, Next, Prompt;
    if steps != [] {
      NextKeeps(s, steps[0]);
      RunKeeps(Next(s, steps[0]), steps[1..]);
    }
  }

  predicate FarApart(a: int, b: int, gap: int) {
    a + gap <= b || b + gap <= a
  }

  lemma SlotsApart(s: State, m: nat, n: nat)
    requires Inv(s) && m < n < |s.slots|
    ensures Kept(s.acquired, s.slots[m].accountIndex) && Kept(s.acquired, s.slots[n].accountIndex)
    ensures Kept(s.acquired, s.slots[m].peerIndex) && Kept(s.acquired, s.slots[n].peerIndex)
    ensures s.slots[m].account == s.slots[n].account ==>
              FarApart(s.acquired[s.slots[m].accountIndex].at, s.acquired[s.slots[n].accountIndex].at, 1000)
    ensures s.slots[m].peer == s.slots[n].peer ==>
              FarApart(s.acquired[s.slots[m].peerIndex].at, s.acquired[s.slots[n].peerIndex].at, 2000)
  {
    hide LocksOwned, CallsFit;
  }

  lemma ReachableInv(steps: seq<Step>)
    requires PromptRun(START, steps)
    ensures Inv(Run(START, steps))
  {
    assert Inv(START) by {
      assert START.acquired == [] && START.slots == [] && START.calls == map[];
    }
    RunKeeps(START, steps);
  }

  /** Under any interleaving of callers, any two slots granted for one account rest on account locks set at
      least a second apart, and any two for one peer on peer locks set at least two seconds apart. */
  lemma SlotsSpaced(steps: seq<Step>, m: nat, n: nat)
    requires PromptRun(START, steps) && m < n < |Run(START, steps).slots|
    ensures var s := Run(START, steps);
            && Kept(s.acquired, s.slots[m].accountIndex) && Kept(s.acquired, s.slots[n].accountIndex)
            && Kept(s.acquired, s.slots[m].peerIndex) && Kept(s.acquired, s.slots[n].peerIndex)
            && (s.slots[m].account == s.slots[n].account ==>
                  FarApart(s.acquired[s.slots[m].accountIndex].at, s.acquired[s.slots[n].accountIndex].at, 1000))
            && (s.slots[m].peer == s.slots[n].peer ==>
                  FarApart(s.acquired[s.slots[m].peerIndex].at, s.acquired[s.slots[n].peerIndex].at, 2000))
  {
    ReachableInv(steps);
    hide Inv, Run, Next;
    SlotsApart(Run(START, steps), m, n);
  }

  /** The loop never returns without both locks: every slot rests on an account lock and a peer lock of its
      own, set for its account and its peer, the account's first, and never taken back. */
  lemma SlotHasBothLocks(steps: seq<Step>, n: nat)
    requires PromptRun(START, steps) && n < |Run(START, steps).slots|
    ensures var s := Run(START, steps);
            var slot := s.slots[n];
            && Kept(s.acquired, slot.accountIndex) && s.acquired[slot.accountIndex].key == AccountKey(slot.account)
            && Kept(s.acquired, slot.peerIndex) && s.acquired[slot.peerIndex].key == PeerKey(slot.peer)
            && s.acquired[slot.accountIndex].at <= s.acquired[slot.peerIndex].at
            && (forall m | 0 <= m < |s.slots| && m != n ::
                  s.slots[m].accountIndex != slot.accountIndex && s.slots[m].peerIndex != slot.peerIndex)
  {
    ReachableInv(steps);
    hide Run, Next, LocksOwned, Apart, CallsFit;
  }

  // ---------------------------------------------------------------- a late delete

  /** Acquisition `i` is not the releasing caller's, its lock stands at the time of the release, and the
      release takes it away. */
  ghost predicate Deletes(s: State, step: Step, i: int) {
    && step.caller in s.calls && !s.calls[step.caller].phase.Trying?
    && Kept(s.acquired, i) && i != s.calls[step.caller].phase.index
    && Live(s.locks, s.acquired[i].key, step.at) && s.locks[s.acquired[i].key] == s.acquired[i].at + Ttl(s.acquired[i].key)
    && s.acquired[i].key !in Next(s, step).locks
  }

  /** A release deletes a live lock of another caller if and only if its own lock has expired and a lock on
      the key is live again; before that it deletes its own. */
  lemma ReleaseDeletesOtherExactly(s: State, w: int, at: int)
    requires Inv(s) && s.now <= at && w in s.calls && s.calls[w].phase.BackingOff?
    ensures var step := ReleaseAccount(w, at);
            && s.calls[w].phase.index < |s.acquired|
            && ((exists i :: Deletes(s, step, i)) <==>
                  && s.acquired[s.calls[w].phase.index].at + ACCOUNT_LOCK_TTL <= at
                  && Live(s.locks, AccountKey(s.calls[w].account), at))
            && (at < s.acquired[s.calls[w].phase.index].at + ACCOUNT_LOCK_TTL ==>
                  && AccountKey(s.calls[w].account) in s.locks
                  && OwnedBy(s.acquired, s.calls[w].phase.index, AccountKey(s.calls[w].account), s.locks[AccountKey(s.calls[w].account)]))
  {
    var step, key, own := ReleaseAccount(w, at), AccountKey(s.calls[w].account), s.calls[w].phase.index;
    assert Kept(s.acquired, own) && s.acquired[own].key == key;
    if i :| Deletes(s, step, i) {
      assert s.acquired[i].key == key;
    }
    if s.acquired[own].at + ACCOUNT_LOCK_TTL <= at && Live(s.locks, key, at) {
      assert Live(s.locks, key, s.now);
      var i :| OwnedBy(s.acquired, i, key, s.locks[key]);
      assert Deletes(s, step, i);
    }
  }

  /** So a release keeps the invariant exactly when it hits no other caller's lock. */
  lemma ReleaseKeepsExactly(s: State, w: int, at: int)
    requires Inv(s) && s.now <= at
    ensures Inv(Next(s, ReleaseAccount(w, at))) <==> !HitsOther(s, ReleaseAccount(w, at))
  {
    var step := ReleaseAccount(w, at);
    if !HitsOther(s, step) {
      ReleaseAccountKeeps(s, w, at);
      return;
    }
    ReleaseDeletesOtherExactly(s, w, at);
    var i :| Deletes(s, step, i);
    assert Kept(Next(s, step).acquired, i) && Next(s, step).acquired[i] == s.acquired[i];
    hide LiveOwned, Apart, CallsFit, SlotsFit;
    assert !LocksOwned(Next(s, step).locks, Next(s, step).acquired, at);
  }

  lemma {:induction false} RunAppend(s: State, a: seq<Step>, b: seq<Step>)
    ensures Run(s, a + b) == Run(Run(s, a), b)
    decreases |a|
  {
    hide Next;
    if a == [] {
      assert a + b == b;
    } else {
      assert (a + b)[0] == a[0] && (a + b)[1..] == a[1..] + b;
      RunAppend(Next(s, a[0]), a[1..], b);
    }
  }

  lemma RunThree(s: State, e1: Step, e2: Step, e3: Step)
    ensures Run(s, [e1, e2, e3]) == Next(Next(Next(s, e1), e2), e3)
  {
    hide Next;
    assert [e1, e2, e3][1..] == [e2, e3] && [e2, e3][1..] == [e3] && [e3][1..] == [];
    assert Run(Next(Next(s, e1), e2), [e3]) == Next(Next(Next(s, e1), e2), e3);
  }

  /** Caller 0 gets a slot and with it the lock of peer 5. */
  lemma FirstPart()
    ensures Run(START, [Arrive(0, 8, 5, 0), TryAccount(0, 0), TryPeer(0, 0)])
         == State(map[AccountKey(8) := 1000, PeerKey(5) := 2000], map[],
                  [Acquisition(AccountKey(8), 0, false), Acquisition(PeerKey(5), 0, false)], [Slot(8, 5, 0, 1)], 0)
  {
    RunThree(START, Arrive(0, 8, 5, 0), TryAccount(0, 0), TryPeer(0, 0));
  }

  /** Caller 1 gets its account lock, finds the peer's taken and has to back off. */
  lemma SecondPart(s: State)
    requires s.calls == map[] && |s.acquired| == 2 && s.now == 0
    requires AccountKey(9) !in s.locks && Live(s.locks, PeerKey(5), 0)
    ensures Run(s, [Arrive(1, 9, 5, 0), TryAccount(1, 0), TryPeer(1, 0)])
         == s.(locks := s.locks[AccountKey(9) := 1000], calls := map[1 := Call(9, 5, 0, BackingOff(2))],
               acquired := s.acquired + [Acquisition(AccountKey(9), 0, false)])
  {
    RunThree(s, Arrive(1, 9, 5, 0), TryAccount(1, 0), TryPeer(1, 0));
  }

  /** A second later caller `w` gets a slot for the account. */
  lemma SlotPart(s: State, w: int, peer: int, at: int)
    requires w !in s.calls && !Live(s.locks, AccountKey(9), at) && PeerKey(peer) !in s.locks
    ensures Run(s, [Arrive(w, 9, peer, at), TryAccount(w, at), TryPeer(w, at)])
         == s.(locks := s.locks[AccountKey(9) := at + 1000][PeerKey(peer) := at + 2000],
               acquired := s.acquired + [Acquisition(AccountKey(9), at, false), Acquisition(PeerKey(peer), at, false)],
               slots := s.slots + [Slot(9, peer, |s.acquired|, |s.acquired| + 1)], now := at)
  {
    RunThree(s, Arrive(w, 9, peer, at), TryAccount(w, at), TryPeer(w, at));
    var n := |s.acquired|;
    var s2 := Next(Next(s, Arrive(w, 9, peer, at)), TryAccount(w, at));
    assert s2.calls == s.calls[w := Call(9, peer, at, HasAccount(n))];
    assert s2.calls - {w} == s.calls;
    assert s2.acquired + [Acquisition(PeerKey(peer), at, false)]
        == s.acquired + [Acquisition(AccountKey(9), at, false), Acquisition(PeerKey(peer), at, false)];
  }

  /** A late delete breaks the spacing: caller 1, backing off since 0, deletes at 1050 the lock that caller 2
      got its slot on at 1000, and caller 3 gets a slot on a lock set at 1050. */
  lemma {:induction false} LateReleaseBreaksSpacing() returns (steps: seq<Step>)
    ensures var s := Run(START, steps);
            && |s.slots| == 3 && s.slots[1].account == s.slots[2].account == 9
            && Kept(s.acquired, s.slots[1].accountIndex) && Kept(s.acquired, s.slots[2].accountIndex)
            && s.acquired[s.slots[1].accountIndex].at == 1000 && s.acquired[s.slots[2].accountIndex].at == 1050
  {
    var p1 := [Arrive(0, 8, 5, 0), TryAccount(0, 0), TryPeer(0, 0)];
    var p2 := [Arrive(1, 9, 5, 0), TryAccount(1, 0), TryPeer(1, 0)];
    var p3 := [Arrive(2, 9, 6, 1000), TryAccount(2, 1000), TryPeer(2, 1000)];
    var late := ReleaseAccount(1, 1050);
    var p4 := [Arrive(3, 9, 7, 1050), TryAccount(3, 1050), TryPeer(3, 1050)];
    FirstPart();
    var s1 := Run(START, p1);
    SecondPart(s1);
    var s2 := Run(s1, p2);
    SlotPart(s2, 2, 6, 1000);
    var s3 := Run(s2, p3);
    var s4 := Next(s3, late);
    SlotPart(s4, 3, 7, 1050);
    var s5 := Run(s4, p4);
    steps := p1 + (p2 + (p3 + ([late] + p4)));
    assert Run(START, steps) == s5 by {
      hide Next;
      RunAppend(START, p1, p2 + (p3 + ([late] + p4)));
      RunAppend(s1, p2, p3 + ([late] + p4));
      RunAppend(s2, p3, [late] + p4);
      assert ([late] + p4)[1..] == p4;
    }
  }
}
