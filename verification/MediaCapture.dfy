/**
 The task-media capture protocol: an operator opens a capture for a task, replies with a media message,
 a worker copies it to the account's saved messages, and the task is updated by compare-and-set on its
 revision.  Any other step may run while the copy is in flight.

 Each database session is one atomic step.  `MediaStore` holds the two tables and its methods are the
 program's sessions; the functions beside it give each session's effect, and `MediaCaptureRuns` proves
 what every run keeps.
 */
module MediaCapture {
  import opened Common

  type Id = nat

  const MAX_MEDIA_CAPTION_UTF16: nat := 1024
  const UNCLAIMED_CAPTURE_ACTOR_ID: int := 0

  datatype CaptureState = Waiting | Processing | Completed | Expired | Cancelled | Failed

  datatype Code =
    | TaskNotFound | RevisionConflict | ButtonsUnsupported | CaptionTooLong
    | AccountUnavailable | OperatorUnauthorized | OperatorMismatch | BotUnavailable
    | CaptureNotFound | CaptureProcessing | CaptureReplaced | CaptureExpired | AlreadyConsumed
    | SourceCleared | AccountChanged | CopyFailed

  datatype Capture = Capture(
    taskId: Id, userId: int, accountId: int, actor: int, expectedRevision: nat,
    promptId: Option<int>, sourceId: Option<int>, savedId: Option<int>,
    state: CaptureState, errorCode: Option<Code>, expiresAt: int, consumedAt: Option<int>)
  {
    predicate Active() {
      state == Waiting || state == Processing
    }
  }

  datatype MediaRef = MediaRef(accountId: int, messageId: int)

  /** `version` is the task's content contract: 1 for an old task, 2 for one whose edits carry a revision. */
  datatype Task = Task(userId: int, accountId: int, revision: nat, hasButtons: bool, textLength: nat, media: Option<MediaRef>, version: int)

  datatype Account = Account(userId: int, tgUserId: Option<int>, isActive: bool, isBanned: bool, reauthRequired: bool)

  /** What a session reads besides the two tables: the system user the Telegram sender is linked to, the
      accounts, and whether a bot name is configured. */
  datatype Env = Env(linkedUser: Option<int>, accounts: map<int, Account>, botAvailable: bool)

  datatype Store = Store(tasks: map<Id, Task>, captures: map<Id, Capture>)

  type Captures = map<Id, Capture>

  predicate Usable(account: Account) {
    account.isActive && !account.isBanned && !account.reauthRequired
  }

  // ---------------------------------------------------------------- opening a capture

  function CaptureTargetError(task: Task, account: Option<Account>): Option<Code> {
    if task.hasButtons then Some(ButtonsUnsupported)
    else if task.textLength > MAX_MEDIA_CAPTION_UTF16 then Some(CaptionTooLong)
    else if account.None? || account.value.tgUserId.None? || account.value.userId != task.userId then Some(AccountUnavailable)
    else if !Usable(account.value) then Some(AccountUnavailable)
    else None
  }

  function AccountOf(env: Env, accountId: int): Option<Account> {
    if accountId in env.accounts then Some(env.accounts[accountId]) else None
  }

  function CreateError(store: Store, taskId: Id, userId: int, expected: nat, actor: Option<int>, env: Env): Option<Code> {
    if taskId !in store.tasks || store.tasks[taskId].userId != userId then Some(TaskNotFound)
    else if store.tasks[taskId].revision != expected then Some(RevisionConflict)
    else
      var task := store.tasks[taskId];
      var error := CaptureTargetError(task, AccountOf(env, task.accountId));
      if error.Some? then error
      else if actor.Some? && env.linkedUser != Some(userId) then Some(OperatorUnauthorized)
      else if !env.botAvailable then Some(BotUnavailable)
      else None
  }

  predicate Blocking(capture: Capture, taskId: Id, now: int) {
    capture.taskId == taskId && capture.state == Processing && capture.expiresAt > now
  }

  /** An active capture of the task gives way to a new one. */
  function Retired(capture: Capture, taskId: Id, now: int): Capture {
    if capture.taskId != taskId || !capture.Active() then capture
    else if capture.expiresAt <= now then capture.(state := Expired, errorCode := Some(CaptureExpired))
    else capture.(state := Cancelled, errorCode := Some(CaptureReplaced))
  }

  function RetireAll(captures: Captures, taskId: Id, now: int): Captures {
    map c | c in captures :: Retired(captures[c], taskId, now)
  }

  function NewCapture(task: Task, taskId: Id, actor: Option<int>, expiresAt: int): Capture {
    Capture(taskId, task.userId, task.accountId, if actor.Some? then actor.value else UNCLAIMED_CAPTURE_ACTOR_ID,
            task.revision, None, None, None, Waiting, None, expiresAt, None)
  }

  function Create(store: Store, id: Id, taskId: Id, userId: int, expected: nat, actor: Option<int>, env: Env, now: int, expiresAt: int)
    : (Store, Option<Code>)
  {
    var error := CreateError(store, taskId, userId, expected, actor, env);
    if error.Some? then (store, error)
    else if exists c | c in store.captures :: Blocking(store.captures[c], taskId, now) then (store, Some(CaptureProcessing))
    else
      var retired := RetireAll(store.captures, taskId, now);
      (store.(captures := retired[id := NewCapture(store.tasks[taskId], taskId, actor, expiresAt)]), None)
  }

  // ---------------------------------------------------------------- activation, claim, poll

  function ActivationContextError(capture: Capture, task: Option<Task>, account: Option<Account>, linkedUser: Option<int>): Option<Code> {
    if task.None? then Some(RevisionConflict)
    else if account.None? || !Usable(account.value) then Some(AccountUnavailable)
    else if account.value.userId != capture.userId || account.value.tgUserId.None? then Some(AccountUnavailable)
    else if linkedUser != Some(capture.userId) then Some(OperatorMismatch)
    else if task.value.userId != capture.userId || task.value.accountId != capture.accountId
            || task.value.revision != capture.expectedRevision then Some(RevisionConflict)
    else None
  }

  function TaskOf(store: Store, taskId: Id): Option<Task> {
    if taskId in store.tasks then Some(store.tasks[taskId]) else None
  }

  function SetCapture(store: Store, c: Id, capture: Capture): Store {
    store.(captures := store.captures[c := capture])
  }

  /** Expiry is tested before the state, so even a finished capture can be labelled expired here. */
  function Activate(store: Store, c: Id, sender: int, env: Env, promptId: int, now: int): (Store, Option<Code>) {
    if c !in store.captures then (store, Some(CaptureNotFound))
    else
      var capture := store.captures[c];
      if env.linkedUser != Some(capture.userId) then (store, Some(OperatorMismatch))
      else if capture.actor != UNCLAIMED_CAPTURE_ACTOR_ID && capture.actor != sender then (store, Some(OperatorMismatch))
      else if capture.expiresAt <= now then
        (SetCapture(store, c, capture.(state := Expired, errorCode := Some(CaptureExpired))), Some(CaptureExpired))
      else if capture.state != Waiting || capture.promptId.Some? then (store, Some(AlreadyConsumed))
      else
        var claimed := capture.(actor := sender);
        var error := ActivationContextError(claimed, TaskOf(store, capture.taskId), AccountOf(env, capture.accountId), env.linkedUser);
        if error.Some? then (SetCapture(store, c, claimed.(state := Failed, errorCode := error)), error)
        else (SetCapture(store, c, claimed.(promptId := Some(promptId))), None)
  }

  datatype ClaimResult = NoCapture | Refused(code: Code) | Claimed(capture: Capture)

  function Claim(store: Store, c: Id, sender: int, promptId: int, sourceId: int, env: Env, now: int): (Store, ClaimResult) {
    if c !in store.captures || store.captures[c].actor != sender || store.captures[c].promptId != Some(promptId)
       || store.captures[c].taskId !in store.tasks then (store, NoCapture)
    else
      var capture := store.captures[c];
      if capture.state != Waiting then (store, Refused(AlreadyConsumed))
      else if capture.expiresAt <= now then
        (SetCapture(store, c, capture.(state := Expired, errorCode := Some(CaptureExpired))), Refused(CaptureExpired))
      else
        var error := ActivationContextError(capture, TaskOf(store, capture.taskId), AccountOf(env, capture.accountId), env.linkedUser);
        if error.Some? then (SetCapture(store, c, capture.(state := Failed, errorCode := error)), Refused(error.value))
        else
          var claimed := capture.(state := Processing, sourceId := Some(sourceId));
          (SetCapture(store, c, claimed), Claimed(claimed))
  }

  function Poll(store: Store, c: Id, taskId: Id, userId: int, now: int): Store {
    if c in store.captures && store.captures[c].taskId == taskId && store.captures[c].userId == userId
       && store.captures[c].Active() && store.captures[c].expiresAt <= now
    then SetCapture(store, c, store.captures[c].(state := Expired, errorCode := Some(CaptureExpired)))
    else store
  }

  // ---------------------------------------------------------------- after the copy

  function FailedCopy(capture: Capture, savedId: int, now: int, code: Code): Capture {
    capture.(savedId := Some(savedId), state := if code == CaptureExpired then Expired else Failed,
             errorCode := Some(code), consumedAt := Some(now))
  }

  function OrphanCopy(capture: Capture, savedId: int, now: int): Capture {
    capture.(savedId := if capture.savedId.None? then Some(savedId) else capture.savedId,
             consumedAt := if capture.consumedAt.None? then Some(now) else capture.consumedAt)
  }

  /** The compare-and-set condition on the task row. */
  predicate WriteMatches(capture: Capture, task: Task) {
    task.accountId == capture.accountId && task.revision == capture.expectedRevision
  }

  function WrittenTask(task: Task, capture: Capture, savedId: int): Task {
    task.(media := Some(MediaRef(capture.accountId, savedId)), revision := task.revision + 1, version := 2)
  }

  function Complete(store: Store, c: Id, savedId: int, now: int): (Store, Option<Code>) {
    if c !in store.captures then (store, Some(AlreadyConsumed))
    else
      var capture := store.captures[c];
      if capture.state != Processing then (SetCapture(store, c, OrphanCopy(capture, savedId, now)), Some(AlreadyConsumed))
      else if capture.expiresAt <= now then
        (SetCapture(store, c, FailedCopy(capture, savedId, now, CaptureExpired)), Some(CaptureExpired))
      else if capture.taskId !in store.tasks then
        (SetCapture(store, c, FailedCopy(capture, savedId, now, RevisionConflict)), Some(RevisionConflict))
      else
        var task := store.tasks[capture.taskId];
        if task.hasButtons then
          (SetCapture(store, c, FailedCopy(capture, savedId, now, ButtonsUnsupported)), Some(ButtonsUnsupported))
        else if task.textLength > MAX_MEDIA_CAPTION_UTF16 then
          (SetCapture(store, c, FailedCopy(capture, savedId, now, CaptionTooLong)), Some(CaptionTooLong))
        else
          var copied := capture.(savedId := Some(savedId), consumedAt := Some(now));
          if WriteMatches(capture, task) then
            (Store(store.tasks[capture.taskId := WrittenTask(task, capture, savedId)],
                   store.captures[c := copied.(state := Completed)]), None)
          else
            (SetCapture(store, c, copied.(state := Failed, errorCode := Some(RevisionConflict))), Some(RevisionConflict))
  }

  function FailCapture(store: Store, c: Id, code: Code, now: int): Store {
    if c in store.captures && store.captures[c].state == Processing
    then SetCapture(store, c, store.captures[c].(state := Failed, errorCode := Some(code), consumedAt := Some(now)))
    else store
  }

  function Release(store: Store, c: Id, code: Code): Store {
    if c in store.captures && store.captures[c].state == Processing
    then SetCapture(store, c, store.captures[c].(state := Waiting, errorCode := Some(code), sourceId := None, consumedAt := None))
    else store
  }

  // ---------------------------------------------------------------- task mutations

  function CancelActive(captures: Captures, taskId: Id, code: Code): Captures {
    map c | c in captures ::
      if captures[c].taskId == taskId && captures[c].Active() then captures[c].(state := Cancelled, errorCode := Some(code))
      else captures[c]
  }

  predicate RevisionMatches(store: Store, taskId: Id, userId: int, expected: nat) {
    taskId in store.tasks && store.tasks[taskId].userId == userId && store.tasks[taskId].revision == expected
  }

  function DeleteMedia(store: Store, taskId: Id, userId: int, expected: nat): (Store, bool) {
    if !RevisionMatches(store, taskId, userId, expected) then (store, false)
    else
      var task := store.tasks[taskId];
      (Store(store.tasks[taskId := task.(media := None, revision := task.revision + 1)],
             CancelActive(store.captures, taskId, SourceCleared)), true)
  }

  /** The editor's save; moving to another account clears the media and cancels the task's captures. */
  function UpdateTask(store: Store, taskId: Id, userId: int, expected: nat, accountId: int, hasButtons: bool, textLength: nat): (Store, bool) {
    if !RevisionMatches(store, taskId, userId, expected) then (store, false)
    else
      var task := store.tasks[taskId];
      var edited := task.(accountId := accountId, hasButtons := hasButtons, textLength := textLength, revision := expected + 1);
      if accountId == task.accountId then (store.(tasks := store.tasks[taskId := edited]), true)
      else (Store(store.tasks[taskId := edited.(media := None)], CancelActive(store.captures, taskId, AccountChanged)), true)
  }

  /** A setting changed in the bot, without a lock: the session read the revision `loaded` and commits the one
      after it, whatever the row holds by then. */
  function BotEdit(store: Store, taskId: Id, loaded: nat, hasButtons: bool, textLength: nat): (Store, bool) {
    if taskId !in store.tasks then (store, false)
    else
      var task := store.tasks[taskId];
      (store.(tasks := store.tasks[taskId := task.(hasButtons := hasButtons, textLength := textLength, revision := loaded + 1)]), true)
  }

  /** The migration of an old task's media reference: verified at `source`, or recorded as invalid. */
  function MigrateMedia(store: Store, taskId: Id, expected: nat, source: Option<int>): (Store, bool) {
    if taskId !in store.tasks || store.tasks[taskId].revision != expected || store.tasks[taskId].version != 1 then (store, false)
    else
      var task := store.tasks[taskId];
      var moved := task.(revision := task.revision + 1);
      (store.(tasks := store.tasks[taskId :=
         if source.Some? then moved.(media := Some(MediaRef(task.accountId, source.value)), version := 2) else moved]), true)
  }

  /** The columns a batch edit sets; it may set any of them, even the revision. */
  datatype Edit = Edit(accountId: Option<int>, hasButtons: Option<bool>, textLength: Option<nat>, media: Option<Option<MediaRef>>,
                       version: Option<int>, revision: Option<nat>)

  function Edited(task: Task, edit: Edit): Task {
    task.(accountId := if edit.accountId.Some? then edit.accountId.value else task.accountId,
          hasButtons := if edit.hasButtons.Some? then edit.hasButtons.value else task.hasButtons,
          textLength := if edit.textLength.Some? then edit.textLength.value else task.textLength,
          media := if edit.media.Some? then edit.media.value else task.media,
          version := if edit.version.Some? then edit.version.value else task.version,
          revision := if edit.revision.Some? then edit.revision.value else task.revision)
  }

  /** A batch edit of the user's tasks: it skips those it does not find, and fails as a whole at one of version 2.
      It neither moves revisions nor cancels captures. */
  function BatchUpdate(tasks: map<Id, Task>, ids: seq<Id>, userId: int, edit: Edit): Option<map<Id, Task>>
    decreases |ids|
  {
    if ids == [] then Some(tasks)
    else if ids[0] !in tasks || tasks[ids[0]].userId != userId then BatchUpdate(tasks, ids[1..], userId, edit)
    else if tasks[ids[0]].version == 2 then None
    else BatchUpdate(tasks[ids[0] := Edited(tasks[ids[0]], edit)], ids[1..], userId, edit)
  }

  /** A task a batch edit touches: listed, the user's own, and not of version 2. */
  predicate Touched(tasks: map<Id, Task>, ids: seq<Id>, userId: int, t: Id) {
    t in ids && t in tasks && tasks[t].userId == userId && tasks[t].version != 2
  }

  /** The columns an edit names are as it says, the others as they were. */
  ghost predicate TakesOver(before: Task, after: Task, edit: Edit) {
    && after.userId == before.userId
    && (match edit.accountId case Some(account) => after.accountId == account case None => after.accountId == before.accountId)
    && (match edit.hasButtons case Some(buttons) => after.hasButtons == buttons case None => after.hasButtons == before.hasButtons)
    && (match edit.textLength case Some(length) => after.textLength == length case None => after.textLength == before.textLength)
    && (match edit.media case Some(media) => after.media == media case None => after.media == before.media)
    && (match edit.version case Some(version) => after.version == version case None => after.version == before.version)
    && (match edit.revision case Some(revision) => after.revision == revision case None => after.revision == before.revision)
  }

  /** A batch edit that goes through edits exactly the listed tasks of the user, and those were none of version 2. */
  lemma {:induction false} BatchEditsExactly(tasks: map<Id, Task>, ids: seq<Id>, userId: int, edit: Edit)
    requires BatchUpdate(tasks, ids, userId, edit).Some?
    ensures var tasks' := BatchUpdate(tasks, ids, userId, edit).value;
            && tasks'.Keys == tasks.Keys
            && (forall t | t in tasks :: tasks'[t] == if Touched(tasks, ids, userId, t) then Edited(tasks[t], edit) else tasks[t])
            && (forall t | t in tasks && Touched(tasks, ids, userId, t) :: TakesOver(tasks[t], tasks'[t], edit))
            && (forall t | t in tasks && t in ids && tasks[t].userId == userId :: tasks[t].version != 2)
    decreases |ids|
  {
    if ids != [] {
      assert ids == [ids[0]] + ids[1..];
      if ids[0] in tasks && tasks[ids[0]].userId == userId {
        BatchEditsExactly(tasks[ids[0] := Edited(tasks[ids[0]], edit)], ids[1..], userId, edit);
      } else {
        BatchEditsExactly(tasks, ids[1..], userId, edit);
      }
    }
  }

  predicate Own(tasks: map<Id, Task>, t: Id, userId: int) {
    t in tasks && tasks[t].userId == userId
  }

  /** A batch edit goes through exactly if none of the user's tasks it lists is of version 2 to begin with, nor by
      the time it is listed again. */
  lemma {:induction false} BatchGoesThroughExactly(tasks: map<Id, Task>, ids: seq<Id>, userId: int, edit: Edit)
    ensures BatchUpdate(tasks, ids, userId, edit).Some? <==>
              && (forall i | 0 <= i < |ids| && Own(tasks, ids[i], userId) :: tasks[ids[i]].version != 2)
              && (edit.version == Some(2) ==> forall i, j | 0 <= i < j < |ids| && Own(tasks, ids[i], userId) :: ids[i] != ids[j])
    decreases |ids|
  {
    if ids != [] {
      var rest := ids[1..];
      assert forall i | 0 <= i < |rest| :: rest[i] == ids[i + 1];
      assert forall i | 0 < i < |ids| :: ids[i] == rest[i - 1];
      if Own(tasks, ids[0], userId) {
        var tasks' := tasks[ids[0] := Edited(tasks[ids[0]], edit)];
        assert forall t :: Own(tasks', t, userId) == Own(tasks, t, userId);
        BatchGoesThroughExactly(tasks', rest, userId, edit);
      } else {
        BatchGoesThroughExactly(tasks, rest, userId, edit);
      }
    }
  }

  /** Deletion of an account: its tasks go, and with them their captures, even those still processing. */
  function DeleteAccount(store: Store, accountId: int): Store {
    var tasks := map t | t in store.tasks && store.tasks[t].accountId != accountId :: store.tasks[t];
    Store(tasks, map c | c in store.captures && store.captures[c].taskId in tasks :: store.captures[c])
  }

  function DeleteTask(store: Store, taskId: Id): Store {
    if exists c | c in store.captures :: store.captures[c].taskId == taskId && store.captures[c].state == Processing then store
    else Store(store.tasks - {taskId}, map c | c in store.captures && store.captures[c].taskId != taskId :: store.captures[c])
  }

  // ---------------------------------------------------------------- what each session changes

  /** No other row than `c`'s is touched. */
  ghost predicate OnlyCapture(store: Store, store': Store, c: Id) {
    && store'.tasks == store.tasks && store'.captures.Keys == store.captures.Keys
    && forall d | d in store.captures && d != c :: store'.captures[d] == store.captures[d]
  }

  /** A usable account of the user that is signed in to Telegram. */
  ghost predicate Serves(env: Env, accountId: int, userId: int) {
    && accountId in env.accounts && env.accounts[accountId].userId == userId && env.accounts[accountId].tgUserId.Some?
    && env.accounts[accountId].isActive && !env.accounts[accountId].isBanned && !env.accounts[accountId].reauthRequired
  }

  /** The capture's task is the one it was opened for: still there, of the same user and account, and unchanged. */
  ghost predicate TaskStands(store: Store, capture: Capture) {
    && capture.taskId in store.tasks && store.tasks[capture.taskId].userId == capture.userId
    && store.tasks[capture.taskId].accountId == capture.accountId && store.tasks[capture.taskId].revision == capture.expectedRevision
  }

  /** Opening succeeds exactly when the task, the account, the operator and the bot allow it and no capture of the task
      is being processed in time. It adds one waiting capture at the task's revision and ends those waiting - as
      expired, or else as replaced -; a refusal changes nothing, and its code names what stands against it. */
  lemma CreateExactly(store: Store, id: Id, taskId: Id, userId: int, expected: nat, actor: Option<int>, env: Env, now: int, expiresAt: int)
    requires id !in store.captures
    ensures var (store', error) := Create(store, id, taskId, userId, expected, actor, env, now, expiresAt);
            var own := taskId in store.tasks && store.tasks[taskId].userId == userId;
            var busy := exists c :: && c in store.captures && store.captures[c].taskId == taskId
                                    && store.captures[c].state == Processing && now < store.captures[c].expiresAt;
            && (error.None? <==>
                  && own && store.tasks[taskId].revision == expected && !store.tasks[taskId].hasButtons && store.tasks[taskId].textLength <= 1024
                  && Serves(env, store.tasks[taskId].accountId, userId) && (actor.Some? ==> env.linkedUser == Some(userId))
                  && env.botAvailable && !busy)
            && (error.Some? ==> store' == store)
            && (error == Some(TaskNotFound) <==> !own)
            && (error == Some(RevisionConflict) <==> own && store.tasks[taskId].revision != expected)
            && (error == Some(ButtonsUnsupported) ==> own && store.tasks[taskId].hasButtons)
            && (error == Some(CaptionTooLong) ==> own && store.tasks[taskId].textLength > 1024)
            && (error == Some(AccountUnavailable) ==> own && !Serves(env, store.tasks[taskId].accountId, userId))
            && (error == Some(OperatorUnauthorized) ==> actor.Some? && env.linkedUser != Some(userId))
            && (error == Some(BotUnavailable) ==> !env.botAvailable)
            && (error == Some(CaptureProcessing) ==> busy)
            && (error.Some? ==> error.value in [TaskNotFound, RevisionConflict, ButtonsUnsupported, CaptionTooLong, AccountUnavailable,
                                                OperatorUnauthorized, BotUnavailable, CaptureProcessing])
            && (error.None? ==>
                  && store'.tasks == store.tasks && store'.captures.Keys == store.captures.Keys + {id}
                  && store'.captures[id] == Capture(taskId, userId, store.tasks[taskId].accountId, if actor.Some? then actor.value else 0,
                                                    expected, None, None, None, Waiting, None, expiresAt, None)
                  && forall c | c in store.captures ::
                       var was := store.captures[c];
                       store'.captures[c] ==
                         if was.taskId != taskId || (was.state != Waiting && was.state != Processing) then was
                         else if was.expiresAt <= now then was.(state := Expired, errorCode := Some(CaptureExpired))
                         else was.(state := Cancelled, errorCode := Some(CaptureReplaced)))
  {
  }

  /** Opening the link succeeds exactly for the linked user, as the sender the capture is for or its first, in time,
      once, and while task and account stand. It notes the sender and the prompt. A late opening expires the capture
      and a broken context fails it; the other refusals change nothing. */
  lemma ActivateExactly(store: Store, c: Id, sender: int, env: Env, promptId: int, now: int)
    requires c in store.captures
    ensures var (store', error) := Activate(store, c, sender, env, promptId, now);
            var capture, capture' := store.captures[c], store'.captures[c];
            var allowed := env.linkedUser == Some(capture.userId) && (capture.actor == 0 || capture.actor == sender);
            var open := allowed && now < capture.expiresAt && capture.state == Waiting && capture.promptId.None?;
            var stands := TaskStands(store, capture) && Serves(env, capture.accountId, capture.userId);
            && OnlyCapture(store, store', c)
            && (error.None? <==> open && stands)
            && (error == Some(OperatorMismatch) <==> !allowed)
            && (error == Some(CaptureExpired) <==> allowed && capture.expiresAt <= now)
            && (error == Some(AlreadyConsumed) <==> allowed && now < capture.expiresAt && !open)
            && (error == Some(AccountUnavailable) ==> open && !Serves(env, capture.accountId, capture.userId))
            && (error == Some(RevisionConflict) ==> open && !TaskStands(store, capture))
            && (error.Some? ==> error.value in [OperatorMismatch, CaptureExpired, AlreadyConsumed, AccountUnavailable, RevisionConflict])
            && capture' == if error.None? then capture.(actor := sender, promptId := Some(promptId))
                           else if error == Some(CaptureExpired) then capture.(state := Expired, errorCode := error)
                           else if open then capture.(actor := sender, state := Failed, errorCode := error)
                           else capture
  {
  }

  /** A reply claims exactly a waiting capture of its sender and prompt, in time and while task and account stand. */
  lemma ClaimExactly(store: Store, c: Id, sender: int, promptId: int, sourceId: int, env: Env, now: int)
    requires c in store.captures
    ensures var (store', r) := Claim(store, c, sender, promptId, sourceId, env, now);
            var capture, capture' := store.captures[c], store'.captures[c];
            var meant := capture.actor == sender && capture.promptId == Some(promptId) && capture.taskId in store.tasks;
            var open := meant && capture.state == Waiting && now < capture.expiresAt;
            var stands := TaskStands(store, capture) && Serves(env, capture.accountId, capture.userId) && env.linkedUser == Some(capture.userId);
            && OnlyCapture(store, store', c)
            && (r.Claimed? <==> open && stands) && (r.Claimed? ==> r.capture == capture')
            && (r.NoCapture? <==> !meant)
            && (r == Refused(AlreadyConsumed) <==> meant && capture.state != Waiting)
            && (r == Refused(CaptureExpired) <==> meant && capture.state == Waiting && capture.expiresAt <= now)
            && (r.Refused? && open ==>
                  && (r.code == AccountUnavailable ==> !Serves(env, capture.accountId, capture.userId))
                  && (r.code == OperatorMismatch ==> env.linkedUser != Some(capture.userId))
                  && (r.code == RevisionConflict ==> !TaskStands(store, capture))
                  && r.code in [AccountUnavailable, OperatorMismatch, RevisionConflict])
            && capture' == if r.Claimed? then capture.(state := Processing, sourceId := Some(sourceId))
                           else if r == Refused(CaptureExpired) then capture.(state := Expired, errorCode := Some(CaptureExpired))
                           else if open then capture.(state := Failed, errorCode := Some(r.code))
                           else capture
  {
  }

  /** A completion succeeds exactly for a processing, unexpired capture of an unchanged task without buttons, short
      enough and on the same account. It then sets the task's media and moves its revision and version on; a failing one
      leaves the tasks alone and ends a processing capture with its code. The copy is noted either way, on a capture
      that was no longer processing only if none had been. */
  lemma CompletionExactlyWhen(store: Store, c: Id, saved: int, now: int)
    requires c in store.captures
    ensures var capture := store.captures[c];
            var (store', error) := Complete(store, c, saved, now);
            var capture' := store'.captures[c];
            && (error.None? <==>
                  && capture.state == Processing && now < capture.expiresAt && capture.taskId in store.tasks
                  && !store.tasks[capture.taskId].hasButtons && store.tasks[capture.taskId].textLength <= 1024
                  && store.tasks[capture.taskId].accountId == capture.accountId
                  && store.tasks[capture.taskId].revision == capture.expectedRevision)
            && (error == Some(AlreadyConsumed) <==> capture.state != Processing)
            && (error == Some(CaptureExpired) <==> capture.state == Processing && capture.expiresAt <= now)
            && (error == Some(ButtonsUnsupported) ==> capture.taskId in store.tasks && store.tasks[capture.taskId].hasButtons)
            && (error == Some(CaptionTooLong) ==> capture.taskId in store.tasks && store.tasks[capture.taskId].textLength > 1024)
            && (error == Some(RevisionConflict) ==> capture.taskId !in store.tasks || store.tasks[capture.taskId].accountId != capture.accountId
                                                    || store.tasks[capture.taskId].revision != capture.expectedRevision)
            && (error.Some? ==> error.value in [AlreadyConsumed, CaptureExpired, ButtonsUnsupported, CaptionTooLong, RevisionConflict])
            && OnlyCapture(store.(tasks := store'.tasks), store', c)
            && (error.Some? ==> store'.tasks == store.tasks)
            && (error.None? ==>
                  var task := store.tasks[capture.taskId];
                  store'.tasks == store.tasks[capture.taskId := Task(task.userId, task.accountId, capture.expectedRevision + 1, task.hasButtons,
                                                                     task.textLength, Some(MediaRef(capture.accountId, saved)), 2)])
            && capture' == if capture.state != Processing then
                             capture.(savedId := if capture.savedId.Some? then capture.savedId else Some(saved),
                                      consumedAt := if capture.consumedAt.Some? then capture.consumedAt else Some(now))
                           else
                             capture.(savedId := Some(saved), consumedAt := Some(now),
                                      state := if error.None? then Completed else if error == Some(CaptureExpired) then Expired else Failed,
                                      errorCode := if error.None? then capture.errorCode else error)
  {
  }

  /** A poll by the owner expires an overdue capture that is waiting or processing; a broken copy puts a processing one
      back as it was waiting, and a failure report fails it. Nothing else changes. */
  lemma CaptureTouchesExactly(store: Store, c: Id, taskId: Id, userId: int, code: Code, now: int)
    requires c in store.captures
    ensures var capture := store.captures[c];
            var polled, released, failed := Poll(store, c, taskId, userId, now), Release(store, c, code), FailCapture(store, c, code, now);
            && OnlyCapture(store, polled, c) && OnlyCapture(store, released, c) && OnlyCapture(store, failed, c)
            && polled.captures[c] == (if capture.taskId == taskId && capture.userId == userId && capture.expiresAt <= now
                                         && (capture.state == Waiting || capture.state == Processing)
                                      then capture.(state := Expired, errorCode := Some(CaptureExpired)) else capture)
            && released.captures[c] == (if capture.state != Processing then capture
                                        else capture.(state := Waiting, errorCode := Some(code), sourceId := None, consumedAt := None))
            && failed.captures[c] == (if capture.state != Processing then capture
                                      else capture.(state := Failed, errorCode := Some(code), consumedAt := Some(now)))
  {
  }

  /** The waiting and processing captures of a task are cancelled with the code, and no other is touched. */
  ghost predicate Cancels(before: Captures, after: Captures, taskId: Id, code: Code) {
    && after.Keys == before.Keys
    && forall c | c in before ::
         after[c] == if before[c].taskId == taskId && (before[c].state == Waiting || before[c].state == Processing)
                     then before[c].(state := Cancelled, errorCode := Some(code)) else before[c]
  }

  /** Clearing goes through exactly for the owner at the expected revision: the media is gone, the revision moves on and
      the task's captures end. Otherwise nothing changes. */
  lemma DeleteMediaExactly(store: Store, taskId: Id, userId: int, expected: nat)
    ensures var (store', ok) := DeleteMedia(store, taskId, userId, expected);
            && (ok <==> taskId in store.tasks && store.tasks[taskId].userId == userId && store.tasks[taskId].revision == expected)
            && (!ok ==> store' == store)
            && (ok ==>
                  var task := store.tasks[taskId];
                  && store'.tasks == store.tasks[taskId := Task(task.userId, task.accountId, expected + 1, task.hasButtons, task.textLength, None, task.version)]
                  && Cancels(store.captures, store'.captures, taskId, SourceCleared))
  {
  }

  /** A save goes through exactly for the owner at the expected revision. It keeps the media and the captures as long as
      the account stays, and clears and cancels them otherwise. */
  lemma SaveTaskExactly(store: Store, taskId: Id, userId: int, expected: nat, accountId: int, hasButtons: bool, textLength: nat)
    ensures var (store', ok) := UpdateTask(store, taskId, userId, expected, accountId, hasButtons, textLength);
            && (ok <==> taskId in store.tasks && store.tasks[taskId].userId == userId && store.tasks[taskId].revision == expected)
            && (!ok ==> store' == store)
            && (ok ==>
                  var task := store.tasks[taskId];
                  && store'.tasks == store.tasks[taskId := Task(userId, accountId, expected + 1, hasButtons, textLength,
                                                                if accountId == task.accountId then task.media else None, task.version)]
                  && if accountId == task.accountId then store'.captures == store.captures
                     else Cancels(store.captures, store'.captures, taskId, AccountChanged))
  {
  }

  /** The writers that look at no owner: a bot edit sets its columns and the revision after the one it has loaded; the
      migration takes a version-1 task at the expected revision to the next one, with its media verified or not. */
  lemma OtherWritesExactly(store: Store, taskId: Id, at: nat, hasButtons: bool, textLength: nat, source: Option<int>)
    requires taskId in store.tasks
    ensures var task := store.tasks[taskId];
            var (edited, ok) := BotEdit(store, taskId, at, hasButtons, textLength);
            ok && edited == store.(tasks := store.tasks[taskId :=
                              Task(task.userId, task.accountId, at + 1, hasButtons, textLength, task.media, task.version)])
    ensures var task := store.tasks[taskId];
            var (migrated, ok) := MigrateMedia(store, taskId, at, source);
            && (ok <==> task.version == 1 && task.revision == at)
            && migrated == if !ok then store
                           else store.(tasks := store.tasks[taskId :=
                                  if source.None? then Task(task.userId, task.accountId, at + 1, task.hasButtons, task.textLength, task.media, 1)
                                  else Task(task.userId, task.accountId, at + 1, task.hasButtons, task.textLength,
                                            Some(MediaRef(task.accountId, source.value)), 2)])
  {
  }

  /** A session that finds no row changes nothing, and says so. */
  lemma MissingRowsExactly(store: Store, c: Id, taskId: Id, sender: int, env: Env, sent: int, now: int, code: Code, at: nat, source: Option<int>)
    requires c !in store.captures && taskId !in store.tasks
    ensures Activate(store, c, sender, env, sent, now) == (store, Some(CaptureNotFound))
    ensures Claim(store, c, sender, sent, sent, env, now) == (store, NoCapture)
    ensures Complete(store, c, sent, now) == (store, Some(AlreadyConsumed))
    ensures Poll(store, c, taskId, sender, now) == Release(store, c, code) == FailCapture(store, c, code, now) == store
    ensures BotEdit(store, taskId, at, true, 0) == MigrateMedia(store, taskId, at, source) == (store, false)
  {
  }

  /** A task goes with its captures unless one of them is being processed; the tasks of a deleted account go with theirs
      whatever their state. */
  lemma DeletionsExactly(store: Store, taskId: Id, accountId: int)
    requires forall c | c in store.captures :: store.captures[c].taskId in store.tasks
    ensures var gone := DeleteTask(store, taskId);
            if exists c :: c in store.captures && store.captures[c].taskId == taskId && store.captures[c].state == Processing then gone == store
            else
              && gone.tasks == store.tasks - {taskId}
              && (forall c :: c in gone.captures <==> c in store.captures && store.captures[c].taskId != taskId)
              && (forall c | c in gone.captures :: gone.captures[c] == store.captures[c])
    ensures var left := DeleteAccount(store, accountId);
            && (forall t :: t in left.tasks <==> t in store.tasks && store.tasks[t].accountId != accountId)
            && (forall t | t in left.tasks :: left.tasks[t] == store.tasks[t])
            && (forall c :: c in left.captures <==> c in store.captures && store.tasks[store.captures[c].taskId].accountId != accountId)
            && (forall c | c in left.captures :: left.captures[c] == store.captures[c])
  {
  }

  // ---------------------------------------------------------------- the sessions

  class MediaStore {
    var tasks: map<Id, Task>
    var captures: Captures

    constructor ()
      ensures tasks == map[] && captures == map[]
    {
      tasks, captures := map[], map[];
    }

    ghost function Contents(): Store
      reads this
    {
      Store(tasks, captures)
    }

    /** Retires the task's active captures one by one; on a capture still processing the session is
        rolled back. */
    method ReplaceWaiting(taskId: Id, now: int) returns (ok: bool)
      modifies this`captures
      ensures ok == !exists c | c in old(captures) :: Blocking(old(captures)[c], taskId, now)
      ensures captures == if ok then RetireAll(old(captures), taskId, now) else old(captures)
    {
      var work := captures;
      var todo := set c | c in captures && captures[c].taskId == taskId && captures[c].Active();
      while todo != {}
        invariant todo <= captures.Keys == work.Keys
        invariant captures == old(captures)
        invariant forall c | c in todo :: captures[c].taskId == taskId && captures[c].Active() && work[c] == captures[c]
        invariant forall c | c in captures && c !in todo ::
                    !Blocking(captures[c], taskId, now) && work[c] == Retired(captures[c], taskId, now)
        decreases todo
      {
        var c :| c in todo;
        todo := todo - {c};
        var capture := work[c];
        if capture.expiresAt <= now {
          work := work[c := capture.(state := Expired, errorCode := Some(CaptureExpired))];
          continue;
        }
        if capture.state == Processing {
          assert Blocking(captures[c], taskId, now);
          return false;
        }
        work := work[c := capture.(state := Cancelled, errorCode := Some(CaptureReplaced))];
      }
      assert work == RetireAll(captures, taskId, now);
      captures := work;
      return true;
    }

    method CreateCapture(id: Id, taskId: Id, userId: int, expected: nat, actor: Option<int>, env: Env, now: int, expiresAt: int)
      returns (error: Option<Code>)
      modifies this
      ensures (Contents(), error) == Create(old(Contents()), id, taskId, userId, expected, actor, env, now, expiresAt)
    {
      if taskId !in tasks || tasks[taskId].userId != userId {
        return Some(TaskNotFound);
      }
      var task := tasks[taskId];
      if task.revision != expected {
        return Some(RevisionConflict);
      }
      error := CaptureTargetError(task, AccountOf(env, task.accountId));
      if error.Some? {
        return;
      }
      if actor.Some? && env.linkedUser != Some(userId) {
        return Some(OperatorUnauthorized);
      }
      if !env.botAvailable {
        return Some(BotUnavailable);
      }
      var ok := ReplaceWaiting(taskId, now);
      if !ok {
        return Some(CaptureProcessing);
      }
      captures := captures[id := NewCapture(task, taskId, actor, expiresAt)];
      return None;
    }

    method ActivateCapture(c: Id, sender: int, env: Env, promptId: int, now: int) returns (error: Option<Code>)
      modifies this`captures
      ensures (Contents(), error) == Activate(old(Contents()), c, sender, env, promptId, now)
    {
      if c !in captures {
        return Some(CaptureNotFound);
      }
      var capture := captures[c];
      if env.linkedUser != Some(capture.userId) {
        return Some(OperatorMismatch);
      }
      if capture.actor != UNCLAIMED_CAPTURE_ACTOR_ID && capture.actor != sender {
        return Some(OperatorMismatch);
      }
      if capture.expiresAt <= now {
        captures := captures[c := capture.(state := Expired, errorCode := Some(CaptureExpired))];
        return Some(CaptureExpired);
      }
      if capture.state != Waiting || capture.promptId.Some? {
        return Some(AlreadyConsumed);
      }
      capture := capture.(actor := sender);
      var task := if capture.taskId in tasks then Some(tasks[capture.taskId]) else None;
      error := ActivationContextError(capture, task, AccountOf(env, capture.accountId), env.linkedUser);
      if error.Some? {
        captures := captures[c := capture.(state := Failed, errorCode := error)];
        return;
      }
      captures := captures[c := capture.(promptId := Some(promptId))];
    }

    method ClaimCapture(c: Id, sender: int, promptId: int, sourceId: int, env: Env, now: int) returns (r: ClaimResult)
      modifies this`captures
      ensures (Contents(), r) == Claim(old(Contents()), c, sender, promptId, sourceId, env, now)
    {
      if c !in captures || captures[c].actor != sender || captures[c].promptId != Some(promptId) {
        return NoCapture;
      }
      var capture := captures[c];
      if capture.taskId !in tasks {
        return NoCapture;
      }
      if capture.state != Waiting {
        return Refused(AlreadyConsumed);
      }
      if capture.expiresAt <= now {
        captures := captures[c := capture.(state := Expired, errorCode := Some(CaptureExpired))];
        return Refused(CaptureExpired);
      }
      var error := ActivationContextError(capture, Some(tasks[capture.taskId]), AccountOf(env, capture.accountId), env.linkedUser);
      if error.Some? {
        captures := captures[c := capture.(state := Failed, errorCode := error)];
        return Refused(error.value);
      }
      capture := capture.(state := Processing, sourceId := Some(sourceId));
      captures := captures[c := capture];
      return Claimed(capture);
    }

    method CompleteCapture(c: Id, savedId: int, now: int) returns (error: Option<Code>)
      modifies this
      ensures (Contents(), error) == Complete(old(Contents()), c, savedId, now)
    {
      if c !in captures {
        return Some(AlreadyConsumed);
      }
      var capture := captures[c];
      if capture.state != Processing {
        if capture.savedId.None? {
          capture := capture.(savedId := Some(savedId));
        }
        if capture.consumedAt.None? {
          capture := capture.(consumedAt := Some(now));
        }
        captures := captures[c := capture];
        return Some(AlreadyConsumed);
      }
      if capture.expiresAt <= now {
        captures := captures[c := FailedCopy(capture, savedId, now, CaptureExpired)];
        return Some(CaptureExpired);
      }
      if capture.taskId !in tasks || tasks[capture.taskId].hasButtons {
        var code := if capture.taskId !in tasks then RevisionConflict else ButtonsUnsupported;
        captures := captures[c := FailedCopy(capture, savedId, now, code)];
        return Some(code);
      }
      var task := tasks[capture.taskId];
      if task.textLength > MAX_MEDIA_CAPTION_UTF16 {
        captures := captures[c := FailedCopy(capture, savedId, now, CaptionTooLong)];
        return Some(CaptionTooLong);
      }
      var rowcount := 0;
      if WriteMatches(capture, task) {
        tasks := tasks[capture.taskId := WrittenTask(task, capture, savedId)];
        rowcount := 1;
      }
      capture := capture.(savedId := Some(savedId), consumedAt := Some(now));
      if rowcount != 1 {
        captures := captures[c := capture.(state := Failed, errorCode := Some(RevisionConflict))];
        return Some(RevisionConflict);
      }
      captures := captures[c := capture.(state := Completed)];
      return None;
    }

    method GetCaptureStatus(c: Id, taskId: Id, userId: int, now: int) returns (r: Option<CaptureState>)
      modifies this`captures
      ensures Contents() == Poll(old(Contents()), c, taskId, userId, now)
      ensures r == if c in captures && captures[c].taskId == taskId && captures[c].userId == userId
                   then Some(captures[c].state) else None
    {
      if c !in captures || captures[c].taskId != taskId || captures[c].userId != userId {
        return None;
      }
      if captures[c].Active() && captures[c].expiresAt <= now {
        captures := captures[c := captures[c].(state := Expired, errorCode := Some(CaptureExpired))];
      }
      return Some(captures[c].state);
    }

    method ReleaseCaptureForRetry(c: Id, code: Code)
      modifies this`captures
      ensures Contents() == Release(old(Contents()), c, code)
    {
      if c in captures && captures[c].state == Processing {
        captures := captures[c := captures[c].(state := Waiting, errorCode := Some(code), sourceId := None, consumedAt := None)];
      }
    }

    method FailProcessingCapture(c: Id, code: Code, now: int)
      modifies this`captures
      ensures Contents() == FailCapture(old(Contents()), c, code, now)
    {
      if c in captures && captures[c].state == Processing {
        captures := captures[c := captures[c].(state := Failed, errorCode := Some(code), consumedAt := Some(now))];
      }
    }

    method DeleteTaskMedia(taskId: Id, userId: int, expected: nat) returns (ok: bool)
      modifies this
      ensures (Contents(), ok) == DeleteMedia(old(Contents()), taskId, userId, expected)
    {
      if !RevisionMatches(Store(tasks, captures), taskId, userId, expected) {
        return false;
      }
      tasks := tasks[taskId := tasks[taskId].(media := None, revision := tasks[taskId].revision + 1)];
      captures := CancelActive(captures, taskId, SourceCleared);
      return true;
    }

    method BatchUpdateTasks(ids: seq<Id>, userId: int, edit: Edit) returns (ok: bool)
      modifies this`tasks
      ensures ok == BatchUpdate(old(tasks), ids, userId, edit).Some?
      ensures tasks == if ok then BatchUpdate(old(tasks), ids, userId, edit).value else old(tasks)
    {
      var work := tasks;
      var i := 0;
      while i < |ids|
        invariant i <= |ids|
        invariant BatchUpdate(tasks, ids, userId, edit) == BatchUpdate(work, ids[i..], userId, edit)
      {
        var id := ids[i];
        assert ids[i..][1..] == ids[i + 1..];
        i := i + 1;
        if id !in work || work[id].userId != userId {
          continue;
        }
        if work[id].version == 2 {
          return false;
        }
        work := work[id := Edited(work[id], edit)];
      }
      tasks := work;
      ok := true;
    }
  }
}
