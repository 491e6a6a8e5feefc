/** One task's card (src/components/tasks/TaskCard.jsx): the status it reads
    from the newest record, the badge and button it shows, the difficulty
    dots, and what a click on the button does to the task board. The button
    is the only guard against crediting a task twice. */
module TaskCard {
  import opened Js
  import opened Tasks

  const NOT_STARTED: string := "not_started"

  /** `getStatus()`: "not_started" without a record, else the record's status. */
  function GetStatus(userTask: Option<Task>): string {
    if userTask.None? then NOT_STARTED else userTask.value.status
  }

  /** The status a card shows is that of the newest record of its type on the
      board: "not_started" exactly when no record has the type (no stored
      status is "not_started"), and a newer record of the type hides every
      older one. */
  lemma CardStatusFromNewestRecord(tasks: seq<Task>, taskType: string, newer: Task)
    requires forall j :: 0 <= j < |tasks| ==> tasks[j].status != NOT_STARTED
    requires newer.status != NOT_STARTED
    ensures GetStatus(GetUserTask(tasks, taskType)) == NOT_STARTED
      <==> forall j :: 0 <= j < |tasks| ==> tasks[j].task_type != taskType
    ensures FindUserTask(tasks, taskType).Some? ==>
      GetStatus(GetUserTask(tasks, taskType)) == tasks[FindUserTask(tasks, taskType).value].status
    ensures newer.task_type == taskType ==> GetStatus(GetUserTask([newer] + tasks, taskType)) == newer.status
    ensures newer.task_type != taskType ==>
      GetStatus(GetUserTask([newer] + tasks, taskType)) == GetStatus(GetUserTask(tasks, taskType))
  {
    var found := FindUserTask(tasks, taskType);
    if found.Some? {
      assert tasks[found.value].task_type == taskType;
    }
    assert ([newer] + tasks)[1..] == tasks;
  }

  datatype Badge = CompletedBadge | PendingBadge | VerifiedBadge | RejectedBadge

  /** `getStatusBadge()`: one badge per known status, none otherwise. */
  function StatusBadge(status: string): (b: Option<Badge>)
    ensures b.None? <==> status !in {COMPLETED, PENDING, VERIFIED, REJECTED}
    ensures b == Some(PendingBadge) <==> status == PENDING
  {
    if status == COMPLETED then Some(CompletedBadge)
    else if status == PENDING then Some(PendingBadge)
    else if status == VERIFIED then Some(VerifiedBadge)
    else if status == REJECTED then Some(RejectedBadge)
    else None
  }

  /** What the action button does when clicked: nothing (a disabled button),
      start the task, or check its verification. */
  datatype Action = NoAction | StartAction | VerifyAction

  /** `getActionButton()`, with `loading` the card's busy flag: done tasks get
      a disabled "Completed" button, pending ones "Check Verification", and
      every other status (not started, rejected, anything unknown) the start
      button; a busy card's button is disabled. */
  function ActionButton(status: string, loading: bool): (a: Action)
    ensures (status == COMPLETED || status == VERIFIED || loading) <==> a == NoAction
    ensures a == VerifyAction <==> status == PENDING && !loading
    ensures a == StartAction <==> status !in {COMPLETED, VERIFIED, PENDING} && !loading
  {
    if status == COMPLETED || status == VERIFIED then NoAction
    else if status == PENDING then (if loading then NoAction else VerifyAction)
    else if loading then NoAction
    else StartAction
  }

  /** `task.verification_note && getStatus() === 'pending'`. */
  predicate ShowsVerificationNote(def: TaskDef, status: string) {
    Truthy(def.verificationNote) && status == PENDING
  }

  /** Only the two tasks that carry a note show one, and only while pending. */
  lemma NoteOnlyWhilePending(status: string)
    ensures ShowsVerificationNote(AVAILABLE_TASKS[0], status) <==> status == PENDING
    ensures ShowsVerificationNote(AVAILABLE_TASKS[1], status) <==> status == PENDING
    ensures !ShowsVerificationNote(AVAILABLE_TASKS[2], status)
  {
  }

  /** The difficulty row: nothing for a falsy difficulty, else three dots of
      which the i-th is lit when `i < difficulty`. */
  function DifficultyDots(difficulty: int): (dots: Option<seq<bool>>)
    ensures difficulty == 0 <==> dots.None?
    ensures dots.Some? ==> |dots.value| == 3 && forall i :: 0 <= i < 3 ==> dots.value[i] == (i < difficulty)
  {
    if difficulty == 0 then None else Some(seq(3, i => i < difficulty))
  }

  /** How many dots are lit. */
  function LitCount(dots: seq<bool>): nat
    decreases |dots|
  {
    if dots == [] then 0 else (if dots[0] then 1 else 0) + LitCount(dots[1..])
  }

  /** A difficulty is shown as that many lit dots, clamped to the three drawn. */
  lemma {:induction false} LitDotsClampDifficulty(difficulty: int, dots: seq<bool>)
    requires difficulty != 0
    requires |dots| == 3 && forall i :: 0 <= i < 3 ==> dots[i] == (i < difficulty)
    ensures LitCount(dots) == if difficulty < 0 then 0 else if difficulty > 3 then 3 else difficulty
  {
    assert LitCount(dots[3..]) == 0;
    assert LitCount(dots[2..]) == (if dots[2] then 1 else 0) + LitCount(dots[3..]);
    assert LitCount(dots[1..]) == (if dots[1] then 1 else 0) + LitCount(dots[2..]);
  }

  /** A click on the card of `def` on the page: the card's status is read from
      the newest record of its type; the prompt's answer, the new record's id,
      the callback address and the clock are passed through. */
  function Click(b: Board, def: TaskDef, loading: bool, phone: Option<string>, newId: nat, encodedCallback: string, now: int): (r: Board)
    ensures ActionButton(GetStatus(GetUserTask(b.tasks, def.taskType)), loading) == NoAction ==> r == b
    ensures ActionButton(GetStatus(GetUserTask(b.tasks, def.taskType)), loading) == StartAction ==>
      r == HandleStartTask(b, def.taskType, phone, newId, encodedCallback)
    ensures ActionButton(GetStatus(GetUserTask(b.tasks, def.taskType)), loading) == VerifyAction ==>
      r == HandleVerifyTask(b, def.taskType, now)
  {
    match ActionButton(GetStatus(GetUserTask(b.tasks, def.taskType)), loading)
    case NoAction => b
    case StartAction => HandleStartTask(b, def.taskType, phone, newId, encodedCallback)
    case VerifyAction => HandleVerifyTask(b, def.taskType, now)
  }

  /** Through the card a task pays out at most once: a click that changed the
      user left the newest record of the task completed or verified, and any
      later click on the same card does nothing at all. */
  lemma ClickCreditsAtMostOnce(b: Board, def: TaskDef, loading: bool, phone: Option<string>, newId: nat, cb: string, now: int,
                               loading2: bool, phone2: Option<string>, newId2: nat, cb2: string, now2: int)
    requires def in AVAILABLE_TASKS
    ensures var b1 := Click(b, def, loading, phone, newId, cb, now);
      b1.user != b.user ==>
        && GetStatus(GetUserTask(b.tasks, def.taskType)) == PENDING
        && IsDone(GetUserTask(b1.tasks, def.taskType).value)
        && Click(b1, def, loading2, phone2, newId2, cb2, now2) == b1
  {
    var b1 := Click(b, def, loading, phone, newId, cb, now);
    var found := FindUserTask(b.tasks, def.taskType);
    if b1.user != b.user {
      assert found.Some?;
      FindAfterUpdate(b.tasks, def.taskType, found.value, b1.tasks[found.value]);
    }
  }

  /** A rejected task can be started again, and the new pending record is
      what the card then shows. */
  lemma RejectedTaskRestarts(b: Board, def: TaskDef, phone: Option<string>, newId: nat, cb: string, now: int)
    requires def in AVAILABLE_TASKS
    requires GetStatus(GetUserTask(b.tasks, def.taskType)) == REJECTED
    requires StartCreates(def.taskType, phone)
    ensures var b1 := Click(b, def, false, phone, newId, cb, now);
      && |b1.tasks| == |b.tasks| + 1
      && GetStatus(GetUserTask(b1.tasks, def.taskType)) == PENDING
      && ActionButton(GetStatus(GetUserTask(b1.tasks, def.taskType)), false) == VerifyAction
  {
  }
}
