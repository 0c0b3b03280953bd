/**
 Expiring Redis keys held by an owner token: the worker's processing lock and the login flow's
 phone-code lease.  A key is set only if absent, and extended or deleted only by a script that first
 compares the token.
 */
module Leases {
  import opened Common

  type Key = int
  type Token = int

  datatype Entry = Entry(token: Token, expiresAt: int)

  /** Keys past their expiry are still listed but no longer there. */
  type Keys = map<Key, Entry>

  predicate Live(keys: Keys, key: Key, now: int) {
    key in keys && now < keys[key].expiresAt
  }

  function Get(keys: Keys, key: Key, now: int): Option<Token> {
    if Live(keys, key, now) then Some(keys[key].token) else None
  }

  /** SET key token NX EX ttl. */
  function SetIfAbsent(keys: Keys, key: Key, token: Token, ttl: int, now: int): (Keys, bool) {
    if Live(keys, key, now) then (keys, false) else (keys[key := Entry(token, now + ttl)], true)
  }

  function CompareAndDelete(keys: Keys, key: Key, token: Token, now: int): (Keys, bool) {
    if Get(keys, key, now) == Some(token) then (keys - {key}, true) else (keys, false)
  }

  function CompareAndExpire(keys: Keys, key: Key, token: Token, ttl: int, now: int): (Keys, bool) {
    if Get(keys, key, now) == Some(token) then (keys[key := Entry(token, now + ttl)], true) else (keys, false)
  }

  function AtLeastOne(ttl: int): int {
    if ttl < 1 then 1 else ttl
  }

  // ---------------------------------------------------------------- the login cooldown store

  class LoginCooldownStore {
    var keys: Keys

    constructor ()
      ensures keys == map[]
    {
      keys := map[];
    }

    /** Returns 0 when the lease is taken, and otherwise the seconds to wait for the holder's lease. */
    method AcquirePhoneCodeSend(loginId: Key, token: Token, ttlSeconds: int, now: int) returns (retryAfter: int)
      modifies this
      ensures (keys, retryAfter == 0) == SetIfAbsent(old(keys), loginId, token, AtLeastOne(ttlSeconds), now)
      ensures Live(old(keys), loginId, now) ==> retryAfter == old(keys)[loginId].expiresAt - now > 0
    {
      var ttl := AtLeastOne(ttlSeconds);
      if !Live(keys, loginId, now) {
        keys := keys[loginId := Entry(token, now + ttl)];
        return 0;
      }
      retryAfter := RemainingTtl(loginId, now);
      if retryAfter == 0 {
        retryAfter := ttl;
      }
    }

    function RemainingTtl(key: Key, now: int): int
      reads this
    {
      if Live(keys, key, now) then keys[key].expiresAt - now else 0
    }

    method RefreshPhoneCodeSend(loginId: Key, token: Token, ttlSeconds: int, now: int) returns (updated: bool)
      modifies this
      ensures (keys, updated) == CompareAndExpire(old(keys), loginId, token, AtLeastOne(ttlSeconds), now)
    {
      updated := Live(keys, loginId, now) && keys[loginId].token == token;
      if updated {
        keys := keys[loginId := Entry(token, now + AtLeastOne(ttlSeconds))];
      }
    }

    method ReleasePhoneCodeSend(loginId: Key, token: Token, now: int) returns (deleted: bool)
      modifies this
      ensures (keys, deleted) == CompareAndDelete(old(keys), loginId, token, now)
    {
      deleted := Live(keys, loginId, now) && keys[loginId].token == token;
      if deleted {
        keys := keys - {loginId};
      }
    }
  }

  // ---------------------------------------------------------------- what the commands do to a key

  /** Whose a key is at a time, if nobody touches it until then. */
  ghost function Holder(keys: Keys, key: Key, at: int): Option<Token> {
    if key in keys && at < keys[key].expiresAt then Some(keys[key].token) else None
  }

  /** A set takes a key that is nobody's, for its time; a delete frees, and an expire holds on from now, only what is
      the token's own. Each says whether it did, and no other key is touched. */
  lemma CommandsExactly(keys: Keys, key: Key, token: Token, ttl: int, now: int, k: Key, at: int)
    requires now <= at
    ensures var (keys', set_) := SetIfAbsent(keys, key, token, ttl, now);
            && (set_ <==> Holder(keys, key, now).None?)
            && Holder(keys', k, at) == if k != key || !set_ then Holder(keys, k, at) else if at < now + ttl then Some(token) else None
    ensures var (keys', deleted) := CompareAndDelete(keys, key, token, now);
            && (deleted <==> Holder(keys, key, now) == Some(token))
            && Holder(keys', k, at) == if k != key || !deleted then Holder(keys, k, at) else None
    ensures var (keys', extended) := CompareAndExpire(keys, key, token, ttl, now);
            && (extended <==> Holder(keys, key, now) == Some(token))
            && Holder(keys', k, at) == if k != key || !extended then Holder(keys, k, at) else if at < now + ttl then Some(token) else None
  {
  }

  // ---------------------------------------------------------------- whole runs

  /** A holder inside its critical section, and the expiry its own last acquire or refresh set. */
  datatype Session = Session(key: Key, until: int)

  /** `used` are the tokens ever drawn; a token is drawn once. */
  datatype State = State(keys: Keys, inside: map<Token, Session>, used: set<Token>, now: int)

  datatype Step =
    | Enter(token: Token, key: Key, ttl: int, at: int)
    | Refresh(token: Token, ttl: int, at: int)
    | Leave(token: Token, at: int)
    | Crash(token: Token, at: int)

  /** A step by a token that is not inside is no step. A refresh that finds its lease gone ends the section. */
  function Next(s: State, step: Step): State {
    match step
    case Enter(token, key, ttl, at) =>
      if token in s.used then s.(now := at)
      else
        var (keys, ok) := SetIfAbsent(s.keys, key, token, AtLeastOne(ttl), at);
        State(keys, if ok then s.inside[token := Session(key, at + AtLeastOne(ttl))] else s.inside, s.used + {token}, at)
    case Refresh(token, ttl, at) =>
      if token !in s.inside then s.(now := at)
      else
        var key := s.inside[token].key;
        var (keys, ok) := CompareAndExpire(s.keys, key, token, AtLeastOne(ttl), at);
        s.(keys := keys, now := at,
           inside := if ok then s.inside[token := Session(key, at + AtLeastOne(ttl))] else s.inside - {token})
    case Leave(token, at) =>
      if token !in s.inside then s.(now := at)
      else s.(keys := CompareAndDelete(s.keys, s.inside[token].key, token, at).0, inside := s.inside - {token}, now := at)
    case Crash(token, at) => s.(inside := s.inside - {token}, now := at)
  }

  const START := State(map[], map[], {}, 0)

  /** The time a step takes a lease for: at least a second. */
  ghost function Term(step: Step): int
    requires step.Enter? || step.Refresh?
  {
    if step.ttl < 1 then 1 else step.ttl
  }

  /** Who is inside, and whose every key is, after a step: a new token gets in exactly if nobody holds the key, a
      refresh keeps it in exactly if it still holds its own, leaving gives back only what it holds, and a crash leaves
      the key to its expiry. */
  lemma StepsExactly(s: State, step: Step, k: Key, at: int)
    requires step.at <= at
    ensures var s' := Next(s, step);
            var t := step.token;
            && s'.now == step.at
            && (forall u | u != t :: (u in s'.inside <==> u in s.inside) && (u in s.inside ==> s'.inside[u] == s.inside[u]))
            && match step
               case Enter(_, key, _, now) =>
                 var entered := t !in s.used && Holder(s.keys, key, now).None?;
                 && (t !in s.used ==> (t in s'.inside <==> entered || t in s.inside))
                 && (entered ==> s'.inside[t] == Session(key, now + Term(step)))
                 && Holder(s'.keys, k, at) == (if !entered || k != key then Holder(s.keys, k, at)
                                               else if at < now + Term(step) then Some(t) else None)
               case Refresh(_, _, now) =>
                 var held := t in s.inside && Holder(s.keys, s.inside[t].key, now) == Some(t);
                 && (t in s'.inside <==> held)
                 && (held ==> s'.inside[t] == Session(s.inside[t].key, now + Term(step)))
                 && Holder(s'.keys, k, at) == (if !held || k != s.inside[t].key then Holder(s.keys, k, at)
                                               else if at < now + Term(step) then Some(t) else None)
               case Leave(_, now) =>
                 var held := t in s.inside && Holder(s.keys, s.inside[t].key, now) == Some(t);
                 && t !in s'.inside
                 && Holder(s'.keys, k, at) == (if !held || k != s.inside[t].key then Holder(s.keys, k, at) else None)
               case Crash(_, _) => t !in s'.inside && s'.keys == s.keys
  {
  }

  /** A holder that leaves within its lease frees its key: another one gets in at the same moment. */
  lemma LeaveFrees(steps: seq<Step>, holder: Token, token: Token, ttl: int, at: int)
    requires Monotone(0, steps)
    requires var s := Run(START, steps);
             s.now <= at && holder in s.inside && at < s.inside[holder].until && token !in s.used
    ensures var s := Run(START, steps);
            var key := s.inside[holder].key;
            && token !in Next(s, Enter(token, key, ttl, at)).inside
            && token in Next(Next(s, Leave(holder, at)), Enter(token, key, ttl, at)).inside
  {
    assert Inv(START);
    RunKeeps(START, steps);
    var s := Run(START, steps);
    hide Run;
    var key := s.inside[holder].key;
    assert key in s.keys && s.keys[key].token == holder && at < s.keys[key].expiresAt;
  }

  function Run(s: State, steps: seq<Step>): State
    decreases |steps|
  {
    if steps == [] then s else Run(Next(s, steps[0]), steps[1..])
  }

  /** Every key's token was drawn; a session whose lease has not run out still holds its key. */
  ghost predicate Inv(s: State) {
    && (forall k | k in s.keys :: s.keys[k].token in s.used)
    && (forall t | t in s.inside :: t in s.used)
    && (forall t | t in s.inside && s.now < s.inside[t].until ::
          s.inside[t].key in s.keys && s.keys[s.inside[t].key] == Entry(t, s.inside[t].until))
    && (forall k | k in s.keys && s.keys[k].token in s.inside ::
          s.inside[s.keys[k].token] == Session(k, s.keys[k].expiresAt))
  }

  lemma {:induction false} NextKeeps(s: State, step: Step)
    requires Inv(s) && s.now <= step.at
    ensures Inv(Next(s, step)) && Next(s, step).now == step.at
  {
  }

  /** The clock never goes back. */
  ghost predicate Monotone(from: int, steps: seq<Step>)
    decreases |steps|
  {
    steps != [] ==> from <= steps[0].at && Monotone(steps[0].at, steps[1..])
  }

  lemma {:induction false} RunKeeps(s: State, steps: seq<Step>)
    requires Inv(s) && Monotone(s.now, steps)
    ensures Inv(Run(s, steps))
    decreases |steps|
  {
    hide Inv, Next;
    if steps != [] {
      NextKeeps(s, steps[0]);
      RunKeeps(Next(s, steps[0]), steps[1..]);
    }
  }

  /** Nobody is inside past its lease. */
  predicate OnTime(s: State) {
    forall t | t in s.inside :: s.now < s.inside[t].until
  }

  /** After any run, if every section still open is within its lease, no two of them are for the same key. */
  lemma AtMostOneInside(steps: seq<Step>)
    requires Monotone(0, steps) && OnTime(Run(START, steps))
    ensures var s := Run(START, steps);
            forall t, u | t in s.inside && u in s.inside && s.inside[t].key == s.inside[u].key :: t == u
  {
    assert Inv(START);
    RunKeeps(START, steps);
  }

  /** After any run, a step by one token leaves every other token's live key as it is: a stale holder's
      release or refresh never touches a later holder's lease. */
  lemma StaleHolderTouchesNothing(steps: seq<Step>, step: Step, key: Key)
    requires Monotone(0, steps)
    requires var s := Run(START, steps);
             s.now <= step.at && Live(s.keys, key, step.at) && s.keys[key].token != step.token
    ensures var s := Run(START, steps);
            key in Next(s, step).keys && Next(s, step).keys[key] == s.keys[key]
    ensures var s := Run(START, steps);
            step.Refresh? && step.token in s.inside && s.inside[step.token].key == key ==> step.token !in Next(s, step).inside
  {
  }

  /** With a holder inside, a newcomer gets in beside it exactly when no lease on the key is live - which
      takes a holder that has overrun its own. */
  lemma SecondEntryExactly(steps: seq<Step>, holder: Token, token: Token, ttl: int, at: int)
    requires Monotone(0, steps)
    requires var s := Run(START, steps);
             s.now <= at && holder in s.inside && token !in s.used
    ensures var s := Run(START, steps);
            var key := s.inside[holder].key;
            var s' := Next(s, Enter(token, key, ttl, at));
            && holder in s'.inside
            && (token in s'.inside <==> !Live(s.keys, key, at))
            && (token in s'.inside ==> s.inside[holder].until <= at)
  {
    assert Inv(START);
    RunKeeps(START, steps);
    var s := Run(START, steps);
    assert holder != token;
  }

  /** The bound cannot be dropped: a holder that overruns its lease of 10 shares the key with the next. */
  lemma OverrunShares()
    ensures exists steps: seq<Step> :: Monotone(0, steps) && |Run(START, steps).inside| == 2
                       && forall t | t in Run(START, steps).inside :: Run(START, steps).inside[t].key == 7
  {
    var e1, e2 := Enter(1, 7, 10, 0), Enter(2, 7, 10, 10);
    var s1 := Next(START, e1);
    var s2 := Next(s1, e2);
    assert s1 == State(map[7 := Entry(1, 10)], map[1 := Session(7, 10)], {1}, 0);
    assert s2.inside == map[1 := Session(7, 10), 2 := Session(7, 20)];
    assert [e1, e2][1..] == [e2] && [e2][1..] == [];
    assert Run(s2, []) == s2 && Run(s1, [e2]) == s2 && Run(START, [e1, e2]) == s2;
    assert Monotone(10, []) && Monotone(0, [e2]) && Monotone(0, [e1, e2]);
    assert s2.inside.Keys == {1, 2} && |s2.inside.Keys| == 2;
  }
}
