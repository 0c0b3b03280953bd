/**
 A task's target list: a JSON list whose items carry runtime metadata, collected into send targets,
 rewritten after every send, and merged when the user submits the task again.
 */
module Targets {
  import opened Common

  /** A peer type as the program reads it: trimmed and lower-cased. A missing one is OtherType(""). */
  datatype PeerType = User | Chat | Supergroup | Channel | OtherType(name: string)

  datatype Delivery = DeliveryActive | DeliverySuspended | DeliveryUnset

  /** A JSON object of the list; `peerId` is None when it is not a number, a blank title is None. */
  datatype Target = Target(
    peerId: Option<int>, peerType: PeerType, accessHash: Option<int>, title: Option<string>,
    delivery: Delivery, suspendedReason: Option<string>,
    lastErrorType: Option<string>, lastErrorMessage: Option<string>, lastSentId: Option<int>)

  datatype Item = NotAnObject | Object(target: Target)

  datatype Key = Key(peerType: PeerType, peerId: int)

  /** What a send is addressed to. */
  datatype Spec = Spec(key: Key, accessHash: Option<int>, title: Option<string>)

  /** `targets` is None when the column holds no list; the legacy columns name at most one target. */
  datatype Task = Task(targets: Option<seq<Item>>, legacyPeer: Option<int>, legacyType: PeerType, legacyHash: Option<int>)

  // ---------------------------------------------------------------- collecting

  predicate Known(t: PeerType) {
    !t.OtherType?
  }

  /** An explicit target. */
  predicate Valid(item: Item) {
    item.Object? && item.target.peerId.Some? && Known(item.target.peerType)
  }

  predicate Visible(item: Item) {
    Valid(item) && item.target.delivery != DeliverySuspended
  }

  function KeyOf(t: Target): Key
    requires t.peerId.Some?
  {
    Key(t.peerType, t.peerId.value)
  }

  function SpecOf(t: Target): Spec
    requires t.peerId.Some?
  {
    Spec(KeyOf(t), t.accessHash, t.title)
  }

  predicate HasExplicit(items: seq<Item>) {
    exists i :: 0 <= i < |items| && Valid(items[i])
  }

  function VisibleSpecs(items: seq<Item>): seq<Spec> {
    if items == [] then []
    else (if Visible(items[0]) then [SpecOf(items[0].target)] else []) + VisibleSpecs(items[1..])
  }

  function Legacy(task: Task): seq<Spec> {
    if task.legacyPeer.None? then []
    else [Spec(Key(if Known(task.legacyType) then task.legacyType else User, task.legacyPeer.value), task.legacyHash, None)]
  }

  function Items(task: Task): seq<Item> {
    if task.targets.Some? then task.targets.value else []
  }

  /** The first spec of every key, in order, except for keys already seen. */
  function Dedup(specs: seq<Spec>, seen: set<Key>): seq<Spec> {
    if specs == [] then []
    else if specs[0].key in seen then Dedup(specs[1..], seen)
    else [specs[0]] + Dedup(specs[1..], seen + {specs[0].key})
  }

  function Collect(task: Task): seq<Spec> {
    var specs := VisibleSpecs(Items(task));
    Dedup(if specs == [] && !HasExplicit(Items(task)) then Legacy(task) else specs, {})
  }

  // ---------------------------------------------------------------- rewriting

  predicate Matches(item: Item, key: Key) {
    item.Object? && item.target.peerId == Some(key.peerId) && item.target.peerType == key.peerType
  }

  function FailedTarget(t: Target, title: Option<string>, errorType: string, message: string, reason: Option<string>): Target {
    t.(title := if title.Some? then title else t.title,
       lastErrorType := Some(errorType), lastErrorMessage := Some(message),
       delivery := if reason.Some? then DeliverySuspended else DeliveryActive, suspendedReason := reason)
  }

  function RecoveredTarget(t: Target): Target {
    t.(delivery := DeliveryActive, suspendedReason := None, lastErrorType := None, lastErrorMessage := None)
  }

  function FailedItems(items: seq<Item>, key: Key, title: Option<string>, errorType: string, message: string, reason: Option<string>): (r: seq<Item>)
    ensures |r| == |items|
  {
    seq(|items|, i requires 0 <= i < |items| =>
      if Matches(items[i], key) then Object(FailedTarget(items[i].target, title, errorType, message, reason)) else items[i])
  }

  function RecoveredItems(items: seq<Item>, key: Key): (r: seq<Item>)
    ensures |r| == |items|
  {
    seq(|items|, i requires 0 <= i < |items| => if Matches(items[i], key) then Object(RecoveredTarget(items[i].target)) else items[i])
  }

  function AfterFailure(task: Task, key: Key, title: Option<string>, errorType: string, message: string, reason: Option<string>): Task {
    if task.targets.None? then task
    else task.(targets := Some(FailedItems(task.targets.value, key, title, errorType, message, reason)))
  }

  function AfterSuccess(task: Task, key: Key): Task {
    if task.targets.None? then task else task.(targets := Some(RecoveredItems(task.targets.value, key)))
  }

  // ---------------------------------------------------------------- merging a submission

  /** The last existing object with the key (blank types do not count). */
  function LastMatch(items: seq<Item>, key: Key): Option<Target> {
    if items == [] then None
    else
      var last := items[|items| - 1];
      if Matches(last, key) && key.peerType != OtherType("") then Some(last.target) else LastMatch(items[..|items| - 1], key)
  }

  function MergedTarget(incoming: Target, existing: Option<Target>, reset: bool): Target {
    var kept := if existing.None? then incoming
                else
                  var e := existing.value;
                  incoming.(title := if incoming.title.None? then e.title else incoming.title,
                            lastSentId := if e.lastSentId.Some? then e.lastSentId else incoming.lastSentId,
                            lastErrorType := if e.lastErrorType.Some? then e.lastErrorType else incoming.lastErrorType,
                            lastErrorMessage := if e.lastErrorMessage.Some? then e.lastErrorMessage else incoming.lastErrorMessage);
    if reset then kept.(delivery := DeliveryActive, suspendedReason := None)
    else if existing.Some? && existing.value.delivery != DeliveryUnset
    then kept.(delivery := existing.value.delivery, suspendedReason := existing.value.suspendedReason)
    else kept
  }

  function Merge(incoming: seq<Target>, existing: seq<Item>, reset: bool): (r: seq<Item>)
    requires forall i | 0 <= i < |incoming| :: incoming[i].peerId.Some?
    ensures |r| == |incoming|
  {
    seq(|incoming|, i requires 0 <= i < |incoming| =>
      Object(MergedTarget(incoming[i], LastMatch(existing, KeyOf(incoming[i])), reset)))
  }

  // ---------------------------------------------------------------- a save of the task

  /** What a save says about targets: a list of them, or nothing. */
  datatype Submission = TargetsGiven(raw: seq<Item>) | NoTargets

  predicate AllValid(items: seq<Item>) {
    forall i | 0 <= i < |items| :: Valid(items[i])
  }

  /** A submitted target keeps what addresses it and its title. */
  function Stripped(t: Target): Target {
    Target(t.peerId, t.peerType, t.accessHash, t.title, DeliveryUnset, None, None, None, None)
  }

  /** The first target of every key. */
  function Firsts(items: seq<Item>, seen: set<Key>): (r: seq<Target>)
    requires AllValid(items)
    ensures forall i | 0 <= i < |r| :: r[i].peerId.Some? && Known(r[i].peerType) && r[i].delivery == DeliveryUnset
  {
    if items == [] then []
    else
      assert AllValid(items[1..]);
      var key := KeyOf(items[0].target);
      if key in seen then Firsts(items[1..], seen) else [Stripped(items[0].target)] + Firsts(items[1..], seen + {key})
  }

  /** What two lists are compared by; a blank peer type does not count. */
  function Identities(items: seq<Item>): multiset<(PeerType, int, Option<int>)> {
    if items == [] then multiset{}
    else
      var last := items[|items| - 1];
      var before := Identities(items[..|items| - 1]);
      if last.Object? && last.target.peerId.Some? && last.target.peerType != OtherType("")
      then before + multiset{(last.target.peerType, last.target.peerId.value, last.target.accessHash)} else before
  }

  function Objects(targets: seq<Target>): (r: seq<Item>)
    ensures |r| == |targets|
  {
    seq(|targets|, i requires 0 <= i < |targets| => Object(targets[i]))
  }

  /** Two items of one key, one with an access hash and one without, cannot be put in order. */
  predicate Incomparable(items: seq<Item>) {
    exists i, j :: && 0 <= i < |items| && 0 <= j < |items| && items[i].Object? && items[j].Object?
                   && items[i].target.peerId.Some? && items[i].target.peerType != OtherType("")
                   && items[i].target.peerId == items[j].target.peerId && items[i].target.peerType == items[j].target.peerType
                   && items[i].target.accessHash.None? && items[j].target.accessHash.Some?
  }

  predicate CollectionChanged(incoming: seq<Target>, existing: seq<Item>) {
    Identities(Objects(incoming)) != Identities(existing)
  }

  /** The list as saved, with its first target in the legacy columns. */
  function WithTargets(task: Task, items: seq<Item>): Task
    requires items != [] && items[0].Object?
  {
    var first := items[0].target;
    Task(Some(items), first.peerId, first.peerType, first.accessHash)
  }

  function LegacyTarget(task: Task): Option<Target> {
    var t := if task.legacyType == OtherType("") then User else task.legacyType;
    if task.legacyPeer.None? || !Known(t) then None
    else Some(Target(task.legacyPeer, t, task.legacyHash, None, DeliveryUnset, None, None, None, None))
  }

  lemma {:induction false} FirstsNonEmpty(items: seq<Item>)
    requires AllValid(items) && items != []
    ensures Firsts(items, {}) != []
  {
  }

  /** A save: None where it is refused. A submitted list whose targets are those of the task keeps their
      suspensions, and so does a save without targets; any other list resets them. */
  function Save(task: Task, sub: Submission): Option<Task> {
    var existing := Items(task);
    match sub
    case TargetsGiven(raw) =>
      if raw == [] || !AllValid(raw) || Incomparable(existing) then None
      else
        var incoming := Firsts(raw, {});
        FirstsNonEmpty(raw);
        Some(WithTargets(task, Merge(incoming, existing, CollectionChanged(incoming, existing))))
    case NoTargets =>
      if !AllValid(existing) then None
      else if existing == [] then
        if LegacyTarget(task).None? then None else Some(WithTargets(task, [Object(LegacyTarget(task).value)]))
      else
        FirstsNonEmpty(existing);
        Some(WithTargets(task, Merge(Firsts(existing, {}), existing, false)))
  }

  // ---------------------------------------------------------------- the loops

  class TaskRow {
    var targets: Option<seq<Item>>
    const legacyPeer: Option<int>
    const legacyType: PeerType
    const legacyHash: Option<int>

    constructor (task: Task)
      ensures Contents() == task
    {
      targets, legacyPeer, legacyType, legacyHash := task.targets, task.legacyPeer, task.legacyType, task.legacyHash;
    }

    function Contents(): Task
      reads this
    {
      Task(targets, legacyPeer, legacyType, legacyHash)
    }

    method CollectTaskTargets() returns (deduped: seq<Spec>)
      ensures deduped == Collect(Contents())
    {
      var specs: seq<Spec> := [];
      var hasExplicit := false;
      if targets.Some? {
        var items := targets.value;
        var i := 0;
        assert items[..0] == [] && !HasExplicit([]) && items[0..] == items && VisibleSpecs([]) == [];
        hide HasExplicit, VisibleSpecs, Collect, Valid;
        while i < |items|
          invariant i <= |items|
          invariant VisibleSpecs(items) == specs + VisibleSpecs(items[i..])
          invariant hasExplicit == HasExplicit(items[..i])
        {
          var item := items[i];
          assert items[i..] == [item] + items[i + 1..] && items[..i + 1] == items[..i] + [item];
          VisibleCons(item, items[i + 1..]);
          HasExplicitOneMore(items[..i], item);
          i := i + 1;
          if !Valid(item) {
            continue;
          }
          hasExplicit := true;
          if item.target.delivery == DeliverySuspended {
            continue;
          }
          specs := specs + [SpecOf(item.target)];
        }
        assert items[..i] == items;
        assert specs + [] == specs;
      }
      assert specs == VisibleSpecs(Items(Contents())) && hasExplicit == HasExplicit(Items(Contents()));
      hide VisibleSpecs, HasExplicit, Dedup;
      if specs == [] && !hasExplicit {
        if legacyPeer.Some? {
          specs := [Spec(Key(if Known(legacyType) then legacyType else User, legacyPeer.value), legacyHash, None)];
        }
      }
      deduped := RemoveDuplicates(specs);
    }

    method UpdateTaskTargetFailureMetadata(key: Key, title: Option<string>, errorType: string, message: string, reason: Option<string>)
      modifies this
      ensures Contents() == AfterFailure(old(Contents()), key, title, errorType, message, reason)
    {
      if targets.None? {
        return;
      }
      var items := targets.value;
      var updated: seq<Item> := [];
      var i := 0;
      ghost var result := FailedItems(items, key, title, errorType, message, reason);
      while i < |items|
        invariant i <= |items|
        invariant updated == result[..i]
      {
        var item := items[i];
        if Matches(item, key) {
          var t := item.target;
          if title.Some? {
            t := t.(title := title);
          }
          t := t.(lastErrorType := Some(errorType), lastErrorMessage := Some(message));
          if reason.Some? {
            t := t.(delivery := DeliverySuspended, suspendedReason := reason);
          } else {
            t := t.(delivery := DeliveryActive, suspendedReason := None);
          }
          item := Object(t);
        }
        assert item == result[i];
        updated := updated + [item];
        i := i + 1;
      }
      assert result[..i] == result;
      targets := Some(updated);
    }

    method UpdateTaskTargetSuccessMetadata(key: Key)
      modifies this
      ensures Contents() == AfterSuccess(old(Contents()), key)
    {
      if targets.None? {
        return;
      }
      var items := targets.value;
      var updated: seq<Item> := [];
      var i := 0;
      ghost var result := RecoveredItems(items, key);
      while i < |items|
        invariant i <= |items|
        invariant updated == result[..i]
      {
        var item := items[i];
        if Matches(item, key) {
          item := Object(item.target.(delivery := DeliveryActive, suspendedReason := None,
                                      lastErrorType := None, lastErrorMessage := None));
        }
        assert item == result[i];
        updated := updated + [item];
        i := i + 1;
      }
      assert result[..i] == result;
      targets := Some(updated);
    }
  }

  lemma HasExplicitOneMore(items: seq<Item>, item: Item)
    ensures HasExplicit(items + [item]) == (HasExplicit(items) || Valid(item))
  {
    assert (items + [item])[|items|] == item;
    assert forall i | 0 <= i < |items| :: (items + [item])[i] == items[i];
  }

  lemma VisibleCons(item: Item, rest: seq<Item>)
    ensures VisibleSpecs([item] + rest) == (if Visible(item) then [SpecOf(item.target)] else []) + VisibleSpecs(rest)
    ensures Valid(item) ==> item.Object? && item.target.peerId.Some?
  {
    assert ([item] + rest)[1..] == rest;
  }

  method RemoveDuplicates(specs: seq<Spec>) returns (deduped: seq<Spec>)
    ensures deduped == Dedup(specs, {})
  {
    deduped := [];
    var seen: set<Key> := {};
    var i := 0;
    while i < |specs|
      invariant i <= |specs|
      invariant Dedup(specs, {}) == deduped + Dedup(specs[i..], seen)
    {
      var spec := specs[i];
      assert specs[i..][1..] == specs[i + 1..];
      i := i + 1;
      if spec.key in seen {
        continue;
      }
      seen := seen + {spec.key};
      deduped := deduped + [spec];
    }
  }

  /** The merge as the program runs it: a table of the existing objects by key, then one pass. */
  method MergeTargetRuntimeMetadata(incoming: seq<Target>, existing: seq<Item>, reset: bool) returns (merged: seq<Item>)
    requires forall i | 0 <= i < |incoming| :: incoming[i].peerId.Some?
    ensures merged == Merge(incoming, existing, reset)
  {
    var table: map<Key, Target> := map[];
    var i := 0;
    while i < |existing|
      invariant i <= |existing|
      invariant forall key :: (if key in table then Some(table[key]) else None) == LastMatch(existing[..i], key)
    {
      var item := existing[i];
      assert existing[..i + 1][..i] == existing[..i];
      if item.Object? && item.target.peerId.Some? && item.target.peerType != OtherType("") {
        table := table[KeyOf(item.target) := item.target];
      }
      i := i + 1;
    }
    assert existing[..i] == existing;
    merged := [];
    var k := 0;
    while k < |incoming|
      invariant k <= |incoming|
      invariant merged == Merge(incoming, existing, reset)[..k]
    {
      var key := KeyOf(incoming[k]);
      var known := if key in table then Some(table[key]) else None;
      assert known == LastMatch(existing, key);
      merged := merged + [Object(MergedTarget(incoming[k], known, reset))];
      k := k + 1;
    }
  }

  method NormalizeTargetPeers(raw: seq<Item>) returns (r: Option<seq<Target>>)
    ensures r == if AllValid(raw) then Some(Firsts(raw, {})) else None
  {
    var i := 0;
    while i < |raw|
      invariant i <= |raw| && AllValid(raw[..i])
    {
      if !Valid(raw[i]) {
        assert !AllValid(raw);
        return None;
      }
      assert raw[..i + 1] == raw[..i] + [raw[i]];
      i := i + 1;
    }
    assert raw[..i] == raw;
    var deduped: seq<Target> := [];
    var seen: set<Key> := {};
    i := 0;
    while i < |raw|
      invariant i <= |raw| && AllValid(raw[i..]) && Firsts(raw, {}) == deduped + Firsts(raw[i..], seen)
    {
      var key := KeyOf(raw[i].target);
      assert raw[i..][1..] == raw[i + 1..];
      if key !in seen {
        seen := seen + {key};
        deduped := deduped + [Stripped(raw[i].target)];
      }
      i := i + 1;
    }
    assert deduped + [] == deduped;
    r := Some(deduped);
  }

  /** None when the comparison itself fails. */
  method HasTargetCollectionChanged(incoming: seq<Target>, existing: seq<Item>) returns (r: Option<bool>)
    ensures r == if Incomparable(existing) then None else Some(CollectionChanged(incoming, existing))
  {
    if Incomparable(existing) {
      return None;
    }
    var old_: multiset<(PeerType, int, Option<int>)> := multiset{};
    var i := 0;
    assert existing[..0] == [];
    while i < |existing|
      invariant i <= |existing| && old_ == Identities(existing[..i])
    {
      var item := existing[i];
      assert existing[..i + 1][..i] == existing[..i];
      if item.Object? && item.target.peerId.Some? && item.target.peerType != OtherType("") {
        old_ := old_ + multiset{(item.target.peerType, item.target.peerId.value, item.target.accessHash)};
      }
      i := i + 1;
    }
    assert existing[..i] == existing;
    r := Some(Identities(Objects(incoming)) != old_);
  }

  lemma MergeNonEmpty(incoming: seq<Target>, existing: seq<Item>, reset: bool)
    requires incoming != [] && forall i | 0 <= i < |incoming| :: incoming[i].peerId.Some?
    ensures Merge(incoming, existing, reset) != [] && Merge(incoming, existing, reset)[0].Object?
  {
  }

  /** The targets of a save, before anything is written. */
  method NormalizeTargets(task: Task, sub: Submission) returns (saved: Option<Task>)
    ensures saved == Save(task, sub)
  {
    var existing := Items(task);
    hide Firsts, Merge, Identities, Incomparable;
    if sub.TargetsGiven? {
      var incoming := NormalizeTargetPeers(sub.raw);
      if incoming.None? || sub.raw == [] {
        return None;
      }
      FirstsNonEmpty(sub.raw);
      var changed := HasTargetCollectionChanged(incoming.value, existing);
      if changed.None? {
        return None;
      }
      var merged := MergeTargetRuntimeMetadata(incoming.value, existing, changed.value);
      MergeNonEmpty(incoming.value, existing, changed.value);
      return Some(WithTargets(task, merged));
    }
    var targets := NormalizeTargetPeers(existing);
    if targets.None? {
      return None;
    }
    if existing == [] {
      var legacy := LegacyTarget(task);
      return if legacy.None? then None else Some(WithTargets(task, [Object(legacy.value)]));
    }
    FirstsNonEmpty(existing);
    var kept := MergeTargetRuntimeMetadata(targets.value, existing, false);
    MergeNonEmpty(targets.value, existing, false);
    saved := Some(WithTargets(task, kept));
  }

  // ---------------------------------------------------------------- what is collected

  function Without(specs: seq<Spec>, key: Key): seq<Spec> {
    if specs == [] then []
    else (if specs[0].key == key then [] else [specs[0]]) + Without(specs[1..], key)
  }

  predicate Has(specs: seq<Spec>, key: Key) {
    exists i :: 0 <= i < |specs| && specs[i].key == key
  }

  /** The list holds an explicit target with the key. */
  predicate Lists(items: seq<Item>, key: Key) {
    exists i :: 0 <= i < |items| && Valid(items[i]) && Matches(items[i], key)
  }

  lemma {:induction false} DedupFirsts(specs: seq<Spec>, seen: set<Key>)
    ensures var r := Dedup(specs, seen);
            && (forall i, j | 0 <= i < j < |r| :: r[i].key != r[j].key)
            && (forall i | 0 <= i < |r| :: r[i].key !in seen && r[i] in specs)
            && (forall i | 0 <= i < |specs| && specs[i].key !in seen :: Has(r, specs[i].key))
  {
    if specs == [] {
    } else if specs[0].key in seen {
      DedupFirsts(specs[1..], seen);
      assert forall i | 1 <= i < |specs| :: specs[1..][i - 1] == specs[i];
    } else {
      DedupFirsts(specs[1..], seen + {specs[0].key});
      var rest := Dedup(specs[1..], seen + {specs[0].key});
      var r := Dedup(specs, seen);
      assert r == [specs[0]] + rest;
      forall i | 0 <= i < |specs| && specs[i].key !in seen ensures Has(r, specs[i].key) {
        if specs[i].key == specs[0].key {
          assert r[0].key == specs[i].key;
        } else {
          assert specs[1..][i - 1] == specs[i];
          var j :| 0 <= j < |rest| && rest[j].key == specs[i].key;
          assert r[j + 1] == rest[j];
        }
      }
    }
  }

  lemma {:induction false} VisibleSpecsAre(items: seq<Item>)
    ensures forall spec | spec in VisibleSpecs(items) :: exists i :: 0 <= i < |items| && Visible(items[i]) && SpecOf(items[i].target) == spec
    ensures forall i | 0 <= i < |items| && Visible(items[i]) :: Has(VisibleSpecs(items), KeyOf(items[i].target))
  {
    if items != [] {
      VisibleSpecsAre(items[1..]);
      var rest, all := VisibleSpecs(items[1..]), VisibleSpecs(items);
      assert forall i | 1 <= i < |items| :: items[1..][i - 1] == items[i];
      forall i | 0 <= i < |items| && Visible(items[i]) ensures Has(all, KeyOf(items[i].target)) {
        if i == 0 {
          assert all[0] == SpecOf(items[0].target);
        } else {
          var key := KeyOf(items[i].target);
          assert items[1..][i - 1] == items[i];
          var j :| 0 <= j < |rest| && rest[j].key == key;
          assert all[if Visible(items[0]) then j + 1 else j] == rest[j];
        }
      }
    }
  }

  /** With an explicit target in the list, exactly the keys of its unsuspended targets are collected, each
      once and from one of its items: the legacy target never reappears because explicit ones are suspended. */
  lemma CollectsKeys(task: Task)
    requires HasExplicit(Items(task))
    ensures var r := Collect(task);
            && (forall i, j | 0 <= i < j < |r| :: r[i].key != r[j].key)
            && (forall i | 0 <= i < |r| :: exists k :: 0 <= k < |Items(task)| && Visible(Items(task)[k]) && SpecOf(Items(task)[k].target) == r[i])
            && (forall k | 0 <= k < |Items(task)| && Visible(Items(task)[k]) :: Has(r, KeyOf(Items(task)[k].target)))
  {
    var items := Items(task);
    VisibleSpecsAre(items);
    DedupFirsts(VisibleSpecs(items), {});
    var r := Collect(task);
    assert r == Dedup(VisibleSpecs(items), {});
    hide VisibleSpecs, Dedup;
    forall k | 0 <= k < |items| && Visible(items[k]) ensures Has(r, KeyOf(items[k].target)) {
      var i :| 0 <= i < |VisibleSpecs(items)| && VisibleSpecs(items)[i].key == KeyOf(items[k].target);
      assert Has(r, VisibleSpecs(items)[i].key);
    }
  }

  // ---------------------------------------------------------------- lists, item by item

  /** An explicit target of the list: an object with a peer id and one of the four types. */
  ghost predicate Explicit(items: seq<Item>, k: int) {
    && 0 <= k < |items| && items[k].Object? && items[k].target.peerId.Some?
    && (items[k].target.peerType == User || items[k].target.peerType == Chat
        || items[k].target.peerType == Supergroup || items[k].target.peerType == Channel)
  }

  ghost predicate Named(item: Item, key: Key) {
    item.Object? && item.target.peerId == Some(key.peerId) && item.target.peerType == key.peerType
  }

  /** The first explicit target of the key that is not suspended. */
  ghost predicate Sends(items: seq<Item>, k: int, key: Key) {
    && Explicit(items, k) && items[k].target.delivery != DeliverySuspended && Named(items[k], key)
    && forall i | 0 <= i < k && Explicit(items, i) && Named(items[i], key) :: items[i].target.delivery == DeliverySuspended
  }

  ghost predicate SentAs(items: seq<Item>, spec: Spec) {
    exists k :: Sends(items, k, spec.key) && items[k].target.accessHash == spec.accessHash && items[k].target.title == spec.title
  }

  /** What a list is sent to: for every key the first of its targets that is not suspended, with that one's access hash
      and title, in the order of the list. */
  ghost predicate SentInOrder(items: seq<Item>, seen: set<Key>, r: seq<Spec>) {
    && (forall i | 0 <= i < |r| :: r[i].key !in seen && SentAs(items, r[i]))
    && (forall k, key | Sends(items, k, key) && key !in seen :: exists i :: 0 <= i < |r| && r[i].key == key)
    && (forall i, j, a, b | 0 <= i < j < |r| && Sends(items, a, r[i].key) && Sends(items, b, r[j].key) :: a < b)
  }

  lemma SendsShift(items: seq<Item>, k: int, key: Key)
    requires items != []
    ensures !(Visible(items[0]) && KeyOf(items[0].target) == key) ==> (Sends(items, k + 1, key) <==> Sends(items[1..], k, key)) && !Sends(items, 0, key)
    ensures Visible(items[0]) && KeyOf(items[0].target) == key ==> (Sends(items, k, key) <==> k == 0)
  {
    var rest := items[1..];
    assert forall i | 0 <= i < |rest| :: rest[i] == items[i + 1];
    assert forall i :: Explicit(rest, i) ==> Explicit(items, i + 1);
    assert forall i | 0 < i :: Explicit(items, i) ==> Explicit(rest, i - 1);
    assert Explicit(items, 0) <==> Valid(items[0]);
    if Sends(rest, k, key) && !(Visible(items[0]) && KeyOf(items[0].target) == key) {
      forall i | 0 <= i < k + 1 && Explicit(items, i) && Named(items[i], key) ensures items[i].target.delivery == DeliverySuspended {
        if i > 0 {
          assert Explicit(rest, i - 1) && Named(rest[i - 1], key);
        }
      }
    }
  }

  lemma {:induction false} DedupSends(items: seq<Item>, seen: set<Key>)
    ensures SentInOrder(items, seen, Dedup(VisibleSpecs(items), seen))
  {
    var r := Dedup(VisibleSpecs(items), seen);
    if items == [] {
      assert forall k :: !Explicit(items, k);
      return;
    }
    VisibleSplit(items);
    var rest := items[1..];
    if !Visible(items[0]) {
      DedupSends(rest, seen);
      hide Dedup, VisibleSpecs, Visible;
      SentBehind(items, seen, r);
      return;
    }
    var spec := SpecOf(items[0].target);
    DedupCons(spec, VisibleSpecs(rest), seen);
    if spec.key in seen {
      DedupSends(rest, seen);
      hide Dedup, VisibleSpecs;
      SentBehind(items, seen, r);
    } else {
      var r' := Dedup(VisibleSpecs(rest), seen + {spec.key});
      DedupSends(rest, seen + {spec.key});
      hide Dedup, VisibleSpecs;
      SentFirst(items, seen, r');
    }
  }

  lemma SentAsBehind(items: seq<Item>, spec: Spec)
    requires items != [] && SentAs(items[1..], spec) && !(Visible(items[0]) && KeyOf(items[0].target) == spec.key)
    ensures SentAs(items, spec)
  {
    var rest := items[1..];
    var k :| Sends(rest, k, spec.key) && rest[k].target.accessHash == spec.accessHash && rest[k].target.title == spec.title;
    SendsShift(items, k, spec.key);
    assert Sends(items, k + 1, spec.key) && items[k + 1] == rest[k];
  }

  /** Nothing of the first item is sent to. */
  lemma SentBehind(items: seq<Item>, seen: set<Key>, r: seq<Spec>)
    requires items != [] && (Visible(items[0]) ==> KeyOf(items[0].target) in seen) && SentInOrder(items[1..], seen, r)
    ensures SentInOrder(items, seen, r)
  {
    var rest := items[1..];
    forall k, key | key !in seen ensures Sends(items, k, key) <==> Sends(rest, k - 1, key) {
      SendsShift(items, k - 1, key);
    }
    forall i | 0 <= i < |r| ensures SentAs(items, r[i]) {
      SentAsBehind(items, r[i]);
    }
    hide Visible, Sends, SentAs;
  }

  /** The first item is the first of its key. */
  lemma SentFirst(items: seq<Item>, seen: set<Key>, r': seq<Spec>)
    requires items != [] && Visible(items[0]) && KeyOf(items[0].target) !in seen
    requires SentInOrder(items[1..], seen + {KeyOf(items[0].target)}, r')
    ensures SentInOrder(items, seen, [SpecOf(items[0].target)] + r')
  {
    var rest, spec := items[1..], SpecOf(items[0].target);
    var r := [spec] + r';
    forall k, key ensures Sends(items, k, key) <==> if key == spec.key then k == 0 else Sends(rest, k - 1, key) {
      SendsShift(items, k - 1, key);
      SendsShift(items, k, key);
    }
    assert Sends(items, 0, spec.key);
    assert SentAs(items, spec);
    forall i | 0 <= i < |r'| ensures SentAs(items, r'[i]) {
      SentAsBehind(items, r'[i]);
    }
    hide Visible, Sends, SentAs;
    SentFirstCovers(items, seen, r');
    SentFirstInOrder(items, seen, r');
  }

  lemma SentFirstCovers(items: seq<Item>, seen: set<Key>, r': seq<Spec>)
    requires items != [] && Visible(items[0])
    requires forall k, key | Sends(items[1..], k, key) && key !in seen + {KeyOf(items[0].target)} :: exists i :: 0 <= i < |r'| && r'[i].key == key
    requires forall k, key :: Sends(items, k, key) <==> if key == KeyOf(items[0].target) then k == 0 else Sends(items[1..], k - 1, key)
    ensures var r := [SpecOf(items[0].target)] + r';
            forall k, key | Sends(items, k, key) && key !in seen :: exists i :: 0 <= i < |r| && r[i].key == key
  {
    hide Sends;
    var r := [SpecOf(items[0].target)] + r';
    forall k, key | Sends(items, k, key) && key !in seen ensures exists i :: 0 <= i < |r| && r[i].key == key {
      if key == KeyOf(items[0].target) {
        assert r[0].key == key;
      } else {
        var i :| 0 <= i < |r'| && r'[i].key == key;
        assert r[i + 1].key == key;
      }
    }
  }

  lemma SentFirstInOrder(items: seq<Item>, seen: set<Key>, r': seq<Spec>)
    requires items != [] && Visible(items[0]) && SentInOrder(items[1..], seen + {KeyOf(items[0].target)}, r')
    requires forall k, key :: Sends(items, k, key) <==> if key == KeyOf(items[0].target) then k == 0 else Sends(items[1..], k - 1, key)
    ensures var r := [SpecOf(items[0].target)] + r';
            forall i, j, a, b | 0 <= i < j < |r| && Sends(items, a, r[i].key) && Sends(items, b, r[j].key) :: a < b
  {
    var r := [SpecOf(items[0].target)] + r';
    forall i, j, a, b | 0 <= i < j < |r| && Sends(items, a, r[i].key) && Sends(items, b, r[j].key) ensures a < b {
      SendsInList(items, b, r[j].key);
      assert r[j] == r'[j - 1] && (i > 0 ==> r[i] == r'[i - 1]);
    }
    hide Sends;
  }

  lemma SendsInList(items: seq<Item>, k: int, key: Key)
    requires Sends(items, k, key)
    ensures 0 <= k < |items|
  {
  }

  /** What a task is sent to. Without an explicit target it is the legacy one, a user if its type is none of the four;
      with one the legacy target never reappears, even when all explicit ones are suspended. */
  lemma CollectExactly(task: Task)
    ensures (exists k :: Explicit(Items(task), k)) ==> SentInOrder(Items(task), {}, Collect(task))
    ensures (forall k :: !Explicit(Items(task), k)) ==>
              var known := task.legacyType == User || task.legacyType == Chat || task.legacyType == Supergroup || task.legacyType == Channel;
              Collect(task) == if task.legacyPeer.None? then []
                               else [Spec(Key(if known then task.legacyType else User, task.legacyPeer.value), task.legacyHash, None)]
  {
    var items := Items(task);
    DedupSends(items, {});
    assert forall k | 0 <= k < |items| :: Valid(items[k]) <==> Explicit(items, k);
    if k :| Explicit(items, k) {
      assert Valid(items[k]);
    } else {
      assert !HasExplicit(items);
      NothingVisible(items);
      LegacyAlone(task);
    }
  }

  lemma LegacyAlone(task: Task)
    ensures Dedup(Legacy(task), {}) == Legacy(task)
  {
    assert Legacy(task) != [] ==> Legacy(task)[1..] == [];
  }

  // ---------------------------------------------------------------- rewriting and merging, item by item

  /** Every item of the list is as it was, except the objects of the key, which `changed` rewrites. */
  ghost predicate Rewrites(before: Task, after: Task, key: Key, changed: Target -> Target) {
    && after == before.(targets := after.targets) && (before.targets.None? <==> after.targets.None?)
    && (before.targets.Some? ==>
          var items, items' := before.targets.value, after.targets.value;
          && |items'| == |items|
          && forall i | 0 <= i < |items| :: items'[i] == if Named(items[i], key) then Object(changed(items[i].target)) else items[i])
  }

  /** A failed send notes its error on every item of its target, takes over a title it has learnt, and suspends them
      exactly if there is a reason to; a successful one clears them. Address and last message stay. */
  lemma RewritesExactly(task: Task, key: Key, title: Option<string>, errorType: string, message: string, reason: Option<string>)
    ensures Rewrites(task, AfterFailure(task, key, title, errorType, message, reason), key,
                     (t: Target) => Target(t.peerId, t.peerType, t.accessHash, if title.Some? then title else t.title,
                                           if reason.Some? then DeliverySuspended else DeliveryActive, reason,
                                           Some(errorType), Some(message), t.lastSentId))
    ensures Rewrites(task, AfterSuccess(task, key), key,
                     (t: Target) => Target(t.peerId, t.peerType, t.accessHash, t.title, DeliveryActive, None, None, None, t.lastSentId))
  {
  }

  /** The last object of the key, if its type is not blank. */
  ghost predicate LastNamed(items: seq<Item>, k: int, key: Key) {
    && 0 <= k < |items| && Named(items[k], key) && key.peerType != OtherType("")
    && forall i | k < i < |items| :: !Named(items[i], key)
  }

  lemma {:induction false} LastMatchExactly(items: seq<Item>, key: Key)
    ensures LastMatch(items, key).None? <==> forall k :: !LastNamed(items, k, key)
    ensures forall k | LastNamed(items, k, key) :: LastMatch(items, key) == Some(items[k].target)
  {
    if items != [] {
      var n := |items| - 1;
      var rest := items[..n];
      LastMatchExactly(rest, key);
      if Named(items[n], key) {
        assert key.peerType != OtherType("") ==> LastNamed(items, n, key);
      } else {
        forall k ensures LastNamed(items, k, key) <==> LastNamed(rest, k, key) {
        }
      }
    }
  }

  /** A merge keeps what a submission says about every target. A blank title, the last message and the last error come
      from the last existing item of the key, as does the delivery state if it is not to be reset. */
  lemma MergeExactly(incoming: seq<Target>, existing: seq<Item>, reset: bool, i: nat, k: int)
    requires forall j | 0 <= j < |incoming| :: incoming[j].peerId.Some?
    requires i < |incoming|
    ensures var t, r := incoming[i], Merge(incoming, existing, reset);
            var key := Key(t.peerType, t.peerId.value);
            && |r| == |incoming|
            && (LastNamed(existing, k, key) ==>
                  var e := existing[k].target;
                  var kept := !reset && e.delivery != DeliveryUnset;
                  r[i] == Object(Target(t.peerId, t.peerType, t.accessHash, if t.title.Some? then t.title else e.title,
                                        if reset then DeliveryActive else if kept then e.delivery else t.delivery,
                                        if reset then None else if kept then e.suspendedReason else t.suspendedReason,
                                        if e.lastErrorType.Some? then e.lastErrorType else t.lastErrorType,
                                        if e.lastErrorMessage.Some? then e.lastErrorMessage else t.lastErrorMessage,
                                        if e.lastSentId.Some? then e.lastSentId else t.lastSentId)))
            && ((forall j :: !LastNamed(existing, j, key)) ==>
                  r[i] == Object(if reset then t.(delivery := DeliveryActive, suspendedReason := None) else t))
  {
    LastMatchExactly(existing, KeyOf(incoming[i]));
    hide LastMatch;
  }

  // ---------------------------------------------------------------- what a save writes

  /** The first target of its key in a list of explicit targets. */
  ghost predicate FirstOf(items: seq<Item>, k: int, key: Key) {
    0 <= k < |items| && Named(items[k], key) && forall i | 0 <= i < k :: !Named(items[i], key)
  }

  /** The target is the key's first one, with address and title alone. */
  ghost predicate FirstStripped(items: seq<Item>, t: Target) {
    exists k :: t.peerId.Some? && FirstOf(items, k, Key(t.peerType, t.peerId.value))
                && t == Target(t.peerId, t.peerType, items[k].target.accessHash, items[k].target.title, DeliveryUnset, None, None, None, None)
  }

  ghost predicate AllExplicit(items: seq<Item>) {
    forall k | 0 <= k < |items| :: Explicit(items, k)
  }

  lemma AllExplicitExactly(items: seq<Item>)
    ensures AllExplicit(items) <==> AllValid(items)
  {
    assert forall k | 0 <= k < |items| :: Explicit(items, k) <==> Valid(items[k]);
  }

  lemma {:induction false} FirstsStripped(items: seq<Item>, seen: set<Key>)
    requires AllValid(items)
    ensures forall i | 0 <= i < |Firsts(items, seen)| ::
              FirstStripped(items, Firsts(items, seen)[i]) && KeyOf(Firsts(items, seen)[i]) !in seen
  {
    if items == [] {
      return;
    }
    assert AllValid(items[1..]);
    var key := KeyOf(items[0].target);
    var seen' := if key in seen then seen else seen + {key};
    var rest := Firsts(items[1..], seen');
    FirstsStripped(items[1..], seen');
    forall i | 0 <= i < |rest| ensures FirstStripped(items, rest[i]) {
      FirstBehind(items, rest[i]);
    }
    assert FirstOf(items, 0, key);
    assert FirstStripped(items, Stripped(items[0].target));
  }

  lemma FirstBehind(items: seq<Item>, t: Target)
    requires items != [] && AllValid(items) && FirstStripped(items[1..], t) && KeyOf(t) != KeyOf(items[0].target)
    ensures FirstStripped(items, t)
  {
    var rest := items[1..];
    var k :| FirstOf(rest, k, KeyOf(t))
             && t == Target(t.peerId, t.peerType, rest[k].target.accessHash, rest[k].target.title, DeliveryUnset, None, None, None, None);
    assert forall i | 0 <= i < |rest| :: rest[i] == items[i + 1];
    assert FirstOf(items, k + 1, KeyOf(t)) by {
      forall i | 0 <= i < k + 1 ensures !Named(items[i], KeyOf(t)) {
        assert i > 0 ==> !Named(rest[i - 1], KeyOf(t));
      }
    }
  }

  // ---------------------------------------------------------------- suspension

  lemma VisibleSplit(items: seq<Item>)
    requires items != []
    ensures VisibleSpecs(items)
         == if Visible(items[0]) then [SpecOf(items[0].target)] + VisibleSpecs(items[1..]) else VisibleSpecs(items[1..])
  {
    assert [] + VisibleSpecs(items[1..]) == VisibleSpecs(items[1..]);
  }

  lemma WithoutCons(spec: Spec, rest: seq<Spec>, key: Key)
    ensures Without([spec] + rest, key) == if spec.key == key then Without(rest, key) else [spec] + Without(rest, key)
  {
    assert ([spec] + rest)[1..] == rest;
    assert [] + Without(rest, key) == Without(rest, key);
  }

  lemma DedupCons(spec: Spec, rest: seq<Spec>, seen: set<Key>)
    ensures Dedup([spec] + rest, seen)
         == if spec.key in seen then Dedup(rest, seen) else [spec] + Dedup(rest, seen + {spec.key})
  {
    assert ([spec] + rest)[1..] == rest;
  }

  lemma {:induction false} VisibleAfterSuspension(items: seq<Item>, key: Key, title: Option<string>, errorType: string, message: string, reason: string)
    ensures VisibleSpecs(FailedItems(items, key, title, errorType, message, Some(reason))) == Without(VisibleSpecs(items), key)
  {
    if items != [] {
      var after := FailedItems(items, key, title, errorType, message, Some(reason));
      assert after[1..] == FailedItems(items[1..], key, title, errorType, message, Some(reason));
      VisibleAfterSuspension(items[1..], key, title, errorType, message, reason);
      VisibleSplit(items);
      VisibleSplit(after);
      hide VisibleSpecs, Without;
      if Visible(items[0]) {
        WithoutCons(SpecOf(items[0].target), VisibleSpecs(items[1..]), key);
      }
    }
  }

  lemma ExplicitKept(items: seq<Item>, after: seq<Item>)
    requires |after| == |items| && forall i | 0 <= i < |items| :: Valid(after[i]) == Valid(items[i])
    ensures HasExplicit(after) == HasExplicit(items)
  {
  }

  lemma {:induction false} DedupWithout(specs: seq<Spec>, key: Key, seen: set<Key>, seen': set<Key>)
    requires forall k | k != key :: k in seen <==> k in seen'
    ensures Dedup(Without(specs, key), seen) == Without(Dedup(specs, seen'), key)
  {
    if specs != [] {
      var spec, rest := specs[0], specs[1..];
      assert specs == [spec] + rest;
      DedupCons(spec, rest, seen');
      WithoutCons(spec, rest, key);
      DedupWithout(rest, key, seen, seen');
      DedupWithout(rest, key, seen, seen' + {key});
      DedupWithout(rest, key, seen + {spec.key}, seen' + {spec.key});
      WithoutCons(spec, Dedup(rest, seen' + {spec.key}), key);
      DedupCons(spec, Without(rest, key), seen);
    }
  }

  /** Suspending a target removes exactly it from what is collected, the others unchanged and in order -
      precisely when the task has an explicit target at all, or the key was not the legacy target's. */
  lemma SuspensionRemovesExactly(task: Task, key: Key, title: Option<string>, errorType: string, message: string, reason: string)
    ensures Collect(AfterFailure(task, key, title, errorType, message, Some(reason))) == Without(Collect(task), key)
            <==> HasExplicit(Items(task)) || !Has(Collect(task), key)
  {
    var task' := AfterFailure(task, key, title, errorType, message, Some(reason));
    var items, items' := Items(task), Items(task');
    if task.targets.Some? {
      VisibleAfterSuspension(items, key, title, errorType, message, reason);
      ExplicitKept(items, items');
    }
    if HasExplicit(items) {
      DedupWithout(VisibleSpecs(items), key, {}, {});
      return;
    }
    NothingVisible(items);
    NothingVisible(items');
    hide VisibleSpecs, HasExplicit;
    assert Collect(task') == Collect(task);
    WithoutChanges(Collect(task), key);
  }

  lemma {:induction false} NothingVisible(items: seq<Item>)
    requires !HasExplicit(items)
    ensures VisibleSpecs(items) == []
  {
    if items != [] {
      assert !Valid(items[0]);
      assert forall i | 1 <= i < |items| :: items[1..][i - 1] == items[i];
      NothingVisible(items[1..]);
    }
  }

  lemma {:induction false} WithoutChanges(specs: seq<Spec>, key: Key)
    ensures Without(specs, key) == specs <==> !Has(specs, key)
    ensures |Without(specs, key)| <= |specs|
  {
    if specs != [] {
      WithoutChanges(specs[1..], key);
      assert forall i | 1 <= i < |specs| :: specs[1..][i - 1] == specs[i];
      assert Has(specs, key) <==> specs[0].key == key || Has(specs[1..], key);
      if specs[0].key != key {
        assert ([specs[0]] + Without(specs[1..], key))[1..] == Without(specs[1..], key);
      }
    }
  }

  // ---------------------------------------------------------------- recovery

  lemma {:induction false} VisibleAfterRecovery(items: seq<Item>, key: Key)
    ensures Without(VisibleSpecs(RecoveredItems(items, key)), key) == Without(VisibleSpecs(items), key)
  {
    if items != [] {
      var after := RecoveredItems(items, key);
      assert after[1..] == RecoveredItems(items[1..], key);
      VisibleAfterRecovery(items[1..], key);
      VisibleSplit(items);
      VisibleSplit(after);
      hide VisibleSpecs, Without;
      if Visible(items[0]) {
        WithoutCons(SpecOf(items[0].target), VisibleSpecs(items[1..]), key);
      }
      if Visible(after[0]) {
        WithoutCons(SpecOf(after[0].target), VisibleSpecs(after[1..]), key);
      }
    }
  }

  /** A success makes an explicit target collected again, whatever had been suspended, and changes nothing
      about the other targets. */
  lemma SuccessCollectsAgain(task: Task, key: Key)
    ensures Lists(Items(task), key) ==> Has(Collect(AfterSuccess(task, key)), key)
    ensures Without(Collect(AfterSuccess(task, key)), key) == Without(Collect(task), key)
  {
    var task' := AfterSuccess(task, key);
    var items, items' := Items(task), Items(task');
    if task.targets.None? {
      assert Lists(Items(task), key) ==> |Items(task)| > 0;
      return;
    }
    VisibleAfterRecovery(items, key);
    ExplicitKept(items, items');
    if HasExplicit(items) {
      DedupWithout(VisibleSpecs(items), key, {}, {});
      DedupWithout(VisibleSpecs(items'), key, {}, {});
      CollectsKeys(task');
      if Lists(items, key) {
        var i :| 0 <= i < |items| && Valid(items[i]) && Matches(items[i], key);
        assert Visible(items'[i]) && KeyOf(items'[i].target) == key;
      }
    } else {
      NothingVisible(items);
      NothingVisible(items');
    }
  }

  /** The collected spec of the key has this title. */
  predicate TitleIs(specs: seq<Spec>, key: Key, title: Option<string>) {
    exists i :: 0 <= i < |specs| && specs[i].key == key && specs[i].title == title
  }

  /** The title written for the key is harmless: the key was seen, or the first spec to come has that title. */
  predicate TitleFits(specs: seq<Spec>, key: Key, title: Option<string>, seen: set<Key>) {
    key in seen || title.None? || TitleIs(Dedup(specs, seen), key, title) || !Has(specs, key)
  }

  lemma {:induction false} RoundTrip(items: seq<Item>, key: Key, title: Option<string>, errorType: string, message: string, reason: string, seen: set<Key>)
    requires forall i | 0 <= i < |items| && Matches(items[i], key) :: items[i].target.delivery != DeliverySuspended
    requires TitleFits(VisibleSpecs(items), key, title, seen)
    ensures var items' := RecoveredItems(FailedItems(items, key, title, errorType, message, Some(reason)), key);
            Dedup(VisibleSpecs(items'), seen) == Dedup(VisibleSpecs(items), seen)
  {
    if items != [] {
      var rest := items[1..];
      assert forall i | 1 <= i < |items| :: rest[i - 1] == items[i];
      var items' := RecoveredItems(FailedItems(items, key, title, errorType, message, Some(reason)), key);
      assert items'[1..] == RecoveredItems(FailedItems(rest, key, title, errorType, message, Some(reason)), key);
      VisibleSplit(items);
      VisibleSplit(items');
      hide VisibleSpecs, Dedup, TitleFits;
      if !Visible(items[0]) {
        RoundTrip(rest, key, title, errorType, message, reason, seen);
        return;
      }
      var spec, spec' := SpecOf(items[0].target), SpecOf(items'[0].target);
      TitleFitsNext(spec, VisibleSpecs(rest), key, title, seen);
      DedupCons(spec, VisibleSpecs(rest), seen);
      DedupCons(spec', VisibleSpecs(items'[1..]), seen);
      RoundTrip(rest, key, title, errorType, message, reason, if spec.key in seen then seen else seen + {spec.key});
    }
  }

  lemma TitleFitsNext(spec: Spec, rest: seq<Spec>, key: Key, title: Option<string>, seen: set<Key>)
    requires TitleFits([spec] + rest, key, title, seen)
    ensures TitleFits(rest, key, title, if spec.key in seen then seen else seen + {spec.key})
    ensures spec.key == key && key !in seen && title.Some? ==> spec.title == title
  {
    HasCons(spec, rest, key);
    DedupCons(spec, rest, seen);
    if key in seen || title.None? || spec.key in seen {
      return;
    }
    var tail := Dedup(rest, seen + {spec.key});
    DedupFirsts(rest, seen + {spec.key});
    hide Dedup;
    TitleCons(spec, tail, key, title);
    assert forall i | 0 <= i < |tail| :: tail[i].key != spec.key;
  }

  lemma HasCons(spec: Spec, rest: seq<Spec>, key: Key)
    ensures Has([spec] + rest, key) <==> spec.key == key || Has(rest, key)
  {
    assert ([spec] + rest)[0] == spec && forall i | 0 <= i < |rest| :: ([spec] + rest)[i + 1] == rest[i];
  }

  lemma TitleCons(spec: Spec, rest: seq<Spec>, key: Key, title: Option<string>)
    ensures TitleIs([spec] + rest, key, title) <==> (spec.key == key && spec.title == title) || TitleIs(rest, key, title)
  {
    assert ([spec] + rest)[0] == spec && forall i | 0 <= i < |rest| :: ([spec] + rest)[i + 1] == rest[i];
  }

  /** A suspension followed by a success collects what was collected before, if none of the key's items was
      suspended before and the title written is the one collected. */
  lemma SuspensionThenSuccess(task: Task, key: Key, title: Option<string>, errorType: string, message: string, reason: string)
    requires forall i | 0 <= i < |Items(task)| && Matches(Items(task)[i], key) :: Items(task)[i].target.delivery != DeliverySuspended
    requires title.None? || TitleIs(Collect(task), key, title)
    ensures Collect(AfterSuccess(AfterFailure(task, key, title, errorType, message, Some(reason)), key)) == Collect(task)
  {
    var items := Items(task);
    var task' := AfterSuccess(AfterFailure(task, key, title, errorType, message, Some(reason)), key);
    if task.targets.None? {
      return;
    }
    ExplicitKept(items, Items(task'));
    if HasExplicit(items) {
      RoundTrip(items, key, title, errorType, message, reason, {});
    } else {
      NothingVisible(items);
      NothingVisible(Items(task'));
    }
  }

  // ---------------------------------------------------------------- resubmission

  function KeysOf(specs: seq<Spec>): (r: seq<Key>)
    ensures |r| == |specs|
  {
    seq(|specs|, i requires 0 <= i < |specs| => specs[i].key)
  }

  /** First occurrences, in order. */
  function FirstKeys(keys: seq<Key>, seen: set<Key>): seq<Key> {
    if keys == [] then []
    else if keys[0] in seen then FirstKeys(keys[1..], seen)
    else [keys[0]] + FirstKeys(keys[1..], seen + {keys[0]})
  }

  /** The keys a user submitted, as far as they are valid. */
  function SubmittedKeys(incoming: seq<Target>): seq<Key>
    requires forall i | 0 <= i < |incoming| :: incoming[i].peerId.Some?
  {
    if incoming == [] then []
    else (if Known(incoming[0].peerType) then [KeyOf(incoming[0])] else []) + SubmittedKeys(incoming[1..])
  }

  lemma {:induction false} DedupKeys(specs: seq<Spec>, seen: set<Key>)
    ensures KeysOf(Dedup(specs, seen)) == FirstKeys(KeysOf(specs), seen)
  {
    if specs != [] {
      assert KeysOf(specs)[1..] == KeysOf(specs[1..]);
      DedupKeys(specs[1..], seen);
      DedupKeys(specs[1..], seen + {specs[0].key});
      var rest := Dedup(specs[1..], seen + {specs[0].key});
      assert KeysOf([specs[0]] + rest) == [specs[0].key] + KeysOf(rest);
    }
  }

  /** A merge that keeps delivery states leaves a target suspended if the last existing item of its key is. */
  predicate StaysSuspended(existing: seq<Item>, key: Key, reset: bool) {
    !reset && LastMatch(existing, key).Some? && LastMatch(existing, key).value.delivery == DeliverySuspended
  }

  /** The submitted keys that a merge leaves to be collected. */
  function KeptKeys(incoming: seq<Target>, existing: seq<Item>, reset: bool): seq<Key>
    requires forall i | 0 <= i < |incoming| :: incoming[i].peerId.Some?
  {
    if incoming == [] then []
    else
      (if Known(incoming[0].peerType) && !StaysSuspended(existing, KeyOf(incoming[0]), reset) then [KeyOf(incoming[0])] else [])
      + KeptKeys(incoming[1..], existing, reset)
  }

  /** Where it would count, submitted targets carry no delivery state of their own. */
  predicate Plain(incoming: seq<Target>, reset: bool) {
    forall i | 0 <= i < |incoming| :: incoming[i].peerId.Some? && (reset || incoming[i].delivery == DeliveryUnset)
  }

  lemma {:induction false} MergedVisible(incoming: seq<Target>, existing: seq<Item>, reset: bool)
    requires Plain(incoming, reset)
    ensures KeysOf(VisibleSpecs(Merge(incoming, existing, reset))) == KeptKeys(incoming, existing, reset)
    ensures HasExplicit(Merge(incoming, existing, reset)) <==> SubmittedKeys(incoming) != []
  {
    var merged := Merge(incoming, existing, reset);
    if incoming == [] {
      assert KeysOf([]) == [];
      return;
    }
    assert merged == [merged[0]] + merged[1..] && merged[1..] == Merge(incoming[1..], existing, reset);
    MergedVisible(incoming[1..], existing, reset);
    MergedOne(incoming[0], existing, reset);
    HasExplicitCons(merged[0], merged[1..]);
    VisibleCons(merged[0], merged[1..]);
    var rest := VisibleSpecs(merged[1..]);
    hide Merge, MergedTarget, HasExplicit, StaysSuspended, VisibleSpecs, LastMatch;
    if Visible(merged[0]) {
      assert KeysOf([SpecOf(merged[0].target)] + rest) == [KeyOf(incoming[0])] + KeysOf(rest);
    } else {
      assert [] + rest == rest && [] + KeysOf(rest) == KeysOf(rest);
    }
  }

  lemma MergedOne(t: Target, existing: seq<Item>, reset: bool)
    requires t.peerId.Some? && (reset || t.delivery == DeliveryUnset)
    ensures var item := Object(MergedTarget(t, LastMatch(existing, KeyOf(t)), reset));
            && Valid(item) == Known(t.peerType) && item.target.peerId.Some? && KeyOf(item.target) == KeyOf(t)
            && Visible(item) == (Known(t.peerType) && !StaysSuspended(existing, KeyOf(t), reset))
  {
  }

  lemma HasExplicitCons(item: Item, rest: seq<Item>)
    ensures HasExplicit([item] + rest) == (Valid(item) || HasExplicit(rest))
  {
    assert ([item] + rest)[0] == item;
    assert forall i | 0 <= i < |rest| :: ([item] + rest)[i + 1] == rest[i];
  }

  lemma {:induction false} FirstKeysIn(keys: seq<Key>, seen: set<Key>, key: Key)
    ensures key in FirstKeys(keys, seen) <==> key in keys && key !in seen
  {
    if keys != [] {
      FirstKeysIn(keys[1..], seen, key);
      FirstKeysIn(keys[1..], seen + {keys[0]}, key);
      assert keys == [keys[0]] + keys[1..];
    }
  }

  lemma {:induction false} KeptAmongSubmitted(incoming: seq<Target>, existing: seq<Item>, reset: bool, key: Key)
    requires Plain(incoming, reset)
    ensures key in KeptKeys(incoming, existing, reset) <==> key in SubmittedKeys(incoming) && !StaysSuspended(existing, key, reset)
    ensures (forall k | k in SubmittedKeys(incoming) :: !StaysSuspended(existing, k, reset)) ==>
              KeptKeys(incoming, existing, reset) == SubmittedKeys(incoming)
  {
    if incoming != [] {
      KeptAmongSubmitted(incoming[1..], existing, reset, key);
      hide StaysSuspended;
      var rest := SubmittedKeys(incoming[1..]);
      assert forall k | k in rest :: k in SubmittedKeys(incoming);
    }
  }

  /** What is collected after a submission, in order: the first occurrences of the valid targets submitted, except
      those that stay suspended. It is all of them exactly if the delivery states are reset or the last existing
      item of no submitted target is suspended. Only a list without any valid target falls back to the legacy one. */
  lemma SubmissionCollectsExactly(task: Task, incoming: seq<Target>, existing: seq<Item>, reset: bool)
    requires Plain(incoming, reset)
    ensures var collected := Collect(task.(targets := Some(Merge(incoming, existing, reset))));
            var submitted := SubmittedKeys(incoming);
            if submitted == [] then collected == Legacy(task)
            else
              && KeysOf(collected) == FirstKeys(KeptKeys(incoming, existing, reset), {})
              && (KeysOf(collected) == FirstKeys(submitted, {}) <==> forall key | key in submitted :: !StaysSuspended(existing, key, reset))
  {
    var merged := Merge(incoming, existing, reset);
    var submitted, kept := SubmittedKeys(incoming), KeptKeys(incoming, existing, reset);
    MergedVisible(incoming, existing, reset);
    DedupKeys(VisibleSpecs(merged), {});
    assert VisibleSpecs(merged) == [] <==> KeysOf(VisibleSpecs(merged)) == [];
    assert Dedup(Legacy(task), {}) == Legacy(task) by {
      assert Legacy(task) != [] ==> Legacy(task)[1..] == [];
    }
    if submitted == [] {
      if kept != [] {
        KeptAmongSubmitted(incoming, existing, reset, kept[0]);
      }
      return;
    }
    hide StaysSuspended, Dedup, VisibleSpecs, MergedTarget;
    KeptAmongSubmitted(incoming, existing, reset, submitted[0]);
    forall key | key in submitted && StaysSuspended(existing, key, reset) ensures FirstKeys(kept, {}) != FirstKeys(submitted, {}) {
      KeptAmongSubmitted(incoming, existing, reset, key);
      FirstKeysIn(kept, {}, key);
      FirstKeysIn(submitted, {}, key);
    }
  }

  function ItemKeys(items: seq<Item>): seq<Key>
    requires AllValid(items)
  {
    if items == [] then []
    else
      assert AllValid(items[1..]);
      [KeyOf(items[0].target)] + ItemKeys(items[1..])
  }

  lemma {:induction false} FirstsKeys(items: seq<Item>, seen: set<Key>)
    requires AllValid(items)
    ensures SubmittedKeys(Firsts(items, seen)) == FirstKeys(ItemKeys(items), seen)
  {
    if items != [] {
      assert AllValid(items[1..]);
      FirstsKeys(items[1..], seen);
      FirstsKeys(items[1..], seen + {KeyOf(items[0].target)});
      var rest := Firsts(items[1..], seen + {KeyOf(items[0].target)});
      assert ([Stripped(items[0].target)] + rest)[1..] == rest;
    }
  }

  lemma {:induction false} FirstKeysTwice(keys: seq<Key>, seen: set<Key>)
    ensures FirstKeys(FirstKeys(keys, seen), seen) == FirstKeys(keys, seen)
  {
    if keys != [] {
      FirstKeysTwice(keys[1..], seen);
      FirstKeysTwice(keys[1..], seen + {keys[0]});
      var rest := FirstKeys(keys[1..], seen + {keys[0]});
      assert keys[0] !in seen ==> FirstKeys(keys, seen)[1..] == rest;
    }
  }

  /** A submitted list of explicit targets is cut down to the first one of every key, in order. */
  lemma NormalizesExactly(items: seq<Item>)
    requires AllExplicit(items)
    ensures AllValid(items)
    ensures var r := Firsts(items, {});
            && (forall i | 0 <= i < |r| :: FirstStripped(items, r[i]))
            && SubmittedKeys(r) == FirstKeys(ItemKeys(items), {})
  {
    AllExplicitExactly(items);
    FirstsStripped(items, {});
    FirstsKeys(items, {});
  }

  /** How often a list holds an address: a peer type that is not blank, an id and an access hash. */
  ghost function Occurs(items: seq<Item>, address: (PeerType, int, Option<int>)): nat {
    |set i | 0 <= i < |items| && items[i].Object? && items[i].target.peerId.Some? && items[i].target.peerType != OtherType("")
             && (items[i].target.peerType, items[i].target.peerId.value, items[i].target.accessHash) == address|
  }

  lemma {:induction false} OccursExactly(items: seq<Item>, address: (PeerType, int, Option<int>))
    ensures Identities(items)[address] == Occurs(items, address)
  {
    var places := set i | 0 <= i < |items| && items[i].Object? && items[i].target.peerId.Some? && items[i].target.peerType != OtherType("")
                          && (items[i].target.peerType, items[i].target.peerId.value, items[i].target.accessHash) == address;
    if items == [] {
      assert places == {};
      return;
    }
    var n := |items| - 1;
    var rest := items[..n];
    OccursExactly(rest, address);
    var before := set i | 0 <= i < |rest| && rest[i].Object? && rest[i].target.peerId.Some? && rest[i].target.peerType != OtherType("")
                          && (rest[i].target.peerType, rest[i].target.peerId.value, rest[i].target.accessHash) == address;
    if items[n].Object? && items[n].target.peerId.Some? && items[n].target.peerType != OtherType("")
       && (items[n].target.peerType, items[n].target.peerId.value, items[n].target.accessHash) == address {
      assert places == before + {n};
    } else {
      assert places == before;
    }
  }

  /** A submission changes the collection exactly if some address occurs more or less often in it than in the list. */
  lemma CollectionChangedExactly(incoming: seq<Target>, existing: seq<Item>)
    ensures CollectionChanged(incoming, existing) <==> exists address :: Occurs(Objects(incoming), address) != Occurs(existing, address)
  {
    forall address ensures Identities(Objects(incoming))[address] == Occurs(Objects(incoming), address)
                           && Identities(existing)[address] == Occurs(existing, address)
    {
      OccursExactly(Objects(incoming), address);
      OccursExactly(existing, address);
    }
    hide Occurs, Identities;
    if forall address :: Occurs(Objects(incoming), address) == Occurs(existing, address) {
      assert Identities(Objects(incoming)) == Identities(existing);
    }
  }

  /** Two items of one key in the list, of which one alone has an access hash. */
  ghost predicate HashMissing(items: seq<Item>) {
    exists key: Key, i, j :: && 0 <= i < |items| && 0 <= j < |items| && key.peerType != OtherType("") && Named(items[i], key) && Named(items[j], key)
                        && items[i].target.accessHash.None? && items[j].target.accessHash.Some?
  }

  lemma HashMissingExactly(items: seq<Item>)
    ensures HashMissing(items) <==> Incomparable(items)
  {
    if Incomparable(items) {
      var i, j :| && 0 <= i < |items| && 0 <= j < |items| && items[i].Object? && items[j].Object?
                  && items[i].target.peerId.Some? && items[i].target.peerType != OtherType("")
                  && items[i].target.peerId == items[j].target.peerId && items[i].target.peerType == items[j].target.peerType
                  && items[i].target.accessHash.None? && items[j].target.accessHash.Some?;
      assert Named(items[i], KeyOf(items[i].target)) && Named(items[j], KeyOf(items[i].target));
    }
  }

  /** A save with targets is refused exactly for an empty list, one that holds anything but explicit targets, and a
      task's own list that cannot be compared. It writes the merge of the submitted targets, resetting the delivery
      states exactly if the collection has changed, and the first target into the legacy columns. */
  lemma SaveExactly(task: Task, raw: seq<Item>)
    ensures var saved := Save(task, TargetsGiven(raw));
            var existing := Items(task);
            && (saved.None? <==> raw == [] || !AllExplicit(raw) || HashMissing(existing))
            && (saved.Some? ==>
                  && AllValid(raw)
                  && var incoming := Firsts(raw, {});
                     var reset := exists address :: Occurs(Objects(incoming), address) != Occurs(existing, address);
                     && incoming != [] && saved.value == Task(Some(Merge(incoming, existing, reset)), incoming[0].peerId, incoming[0].peerType, incoming[0].accessHash))
  {
    AllExplicitExactly(raw);
    HashMissingExactly(Items(task));
    if raw != [] && AllValid(raw) {
      FirstsNonEmpty(raw);
      CollectionChangedExactly(Firsts(raw, {}), Items(task));
    }
    hide Firsts, CollectionChanged, Occurs, HashMissing, Incomparable, LastMatch, AllExplicit, AllValid;
  }

  /** A save without targets keeps the list as it is, cut down to the first target of every key, and the suspensions
      with it; from an empty list it falls back to the legacy target, and is refused without one. */
  lemma SaveNothingExactly(task: Task)
    ensures var saved := Save(task, NoTargets);
            var items := Items(task);
            var known := task.legacyType == User || task.legacyType == Chat || task.legacyType == Supergroup || task.legacyType == Channel;
            && (saved.None? <==> !AllExplicit(items) || (items == [] && (task.legacyPeer.None? || (!known && task.legacyType != OtherType("")))))
            && (saved.Some? && items == [] ==>
                  var legacyType := if known then task.legacyType else User;
                  saved.value == Task(Some([Object(Target(task.legacyPeer, legacyType, task.legacyHash, None, DeliveryUnset, None, None, None, None))]),
                                      task.legacyPeer, legacyType, task.legacyHash))
            && (saved.Some? && items != [] ==>
                  && AllValid(items)
                  && var kept := Firsts(items, {});
                     kept != [] && saved.value == Task(Some(Merge(kept, items, false)), kept[0].peerId, kept[0].peerType, kept[0].accessHash))
  {
    var items := Items(task);
    AllExplicitExactly(items);
    if items != [] && AllValid(items) {
      FirstsNonEmpty(items);
    }
    hide Firsts, LastMatch;
  }

  /** A save with targets collects the first occurrences of the submitted targets exactly if they are not just the
      task's own, or none of these is suspended. */
  lemma SaveCollectsSubmittedExactly(task: Task, raw: seq<Item>)
    requires Save(task, TargetsGiven(raw)).Some?
    ensures AllValid(raw)
    ensures KeysOf(Collect(Save(task, TargetsGiven(raw)).value)) == FirstKeys(ItemKeys(raw), {})
            <==> || CollectionChanged(Firsts(raw, {}), Items(task))
                 || forall key | key in ItemKeys(raw) :: !StaysSuspended(Items(task), key, false)
  {
    var incoming, existing, keys := Firsts(raw, {}), Items(task), ItemKeys(raw);
    var reset := CollectionChanged(incoming, existing);
    var saved := Save(task, TargetsGiven(raw)).value;
    FirstsNonEmpty(raw);
    FirstsKeys(raw, {});
    FirstKeysTwice(keys, {});
    assert saved == saved.(targets := Some(Merge(incoming, existing, reset)));
    assert SubmittedKeys(incoming) != [] by {
      assert Known(incoming[0].peerType);
    }
    SubmissionCollectsExactly(saved, incoming, existing, reset);
    forall key ensures key in FirstKeys(keys, {}) <==> key in keys {
      FirstKeysIn(keys, {}, key);
    }
  }

  const SUSPENDED_ONE := Target(Some(1), User, None, None, DeliverySuspended, Some("chat_restricted"), None, None, None)
  const ACTIVE_TWO := Target(Some(2), User, None, None, DeliveryActive, None, None, None, None)
  const OWN_LIST: seq<Item> := [Object(SUSPENDED_ONE), Object(ACTIVE_TWO)]

  lemma OwnListNormalized()
    ensures AllValid(OWN_LIST) && Firsts(OWN_LIST, {}) == [Stripped(SUSPENDED_ONE), Stripped(ACTIVE_TWO)]
    ensures !CollectionChanged(Firsts(OWN_LIST, {}), OWN_LIST) && !Incomparable(OWN_LIST)
  {
    assert OWN_LIST[1..] == [Object(ACTIVE_TWO)] && [Object(ACTIVE_TWO)][1..] == [];
    var seen := {} + {Key(User, 1)};
    assert Firsts([Object(ACTIVE_TWO)], seen) == [Stripped(ACTIVE_TWO)];
    assert Firsts(OWN_LIST, {}) == [Stripped(SUSPENDED_ONE)] + Firsts([Object(ACTIVE_TWO)], seen);
    var objects := Objects([Stripped(SUSPENDED_ONE), Stripped(ACTIVE_TWO)]);
    assert objects == [Object(Stripped(SUSPENDED_ONE)), Object(Stripped(ACTIVE_TWO))];
    assert Identities(OWN_LIST) == Identities(objects) by {
      hide Firsts;
      TwoIdentities(OWN_LIST[0], OWN_LIST[1]);
      TwoIdentities(objects[0], objects[1]);
      assert OWN_LIST == [OWN_LIST[0], OWN_LIST[1]] && objects == [objects[0], objects[1]];
    }
  }

  lemma TwoIdentities(a: Item, b: Item)
    requires Valid(a) && Valid(b)
    ensures Identities([a, b]) == multiset{(a.target.peerType, a.target.peerId.value, a.target.accessHash),
                                           (b.target.peerType, b.target.peerId.value, b.target.accessHash)}
  {
    assert [a, b][..1] == [a] && [a][..0] == [];
    assert Identities([a]) == multiset{(a.target.peerType, a.target.peerId.value, a.target.accessHash)};
  }

  /** Submitting a task's own list again does not bring a suspended target back: the list holds user 1 suspended
      and user 2 active, and is submitted as it is. */
  lemma SameListKeepsSuspension(task: Task)
    requires task.targets == Some(OWN_LIST)
    ensures var saved := Save(task, TargetsGiven(OWN_LIST));
            saved.Some? && KeysOf(Collect(saved.value)) != FirstKeys(ItemKeys(OWN_LIST), {})
  {
    OwnListNormalized();
    hide Firsts, Merge, Identities, Incomparable, FirstKeys;
    SaveCollectsSubmittedExactly(task, OWN_LIST);
    assert OWN_LIST[1..] == [Object(ACTIVE_TWO)] && OWN_LIST[..1] == [Object(SUSPENDED_ONE)] && OWN_LIST[..1][..0] == [];
    assert Key(User, 1) in ItemKeys(OWN_LIST);
    assert LastMatch(OWN_LIST, Key(User, 1)) == Some(SUSPENDED_ONE);
    assert StaysSuspended(OWN_LIST, Key(User, 1), false);
  }
}
