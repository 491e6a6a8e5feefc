/** The social tasks page (src/pages/Tasks.jsx): the three tasks on offer,
    the user's task records, starting a task (a new pending record), verifying
    it (a status change and a reward credit), and the page's tallies. */
module Tasks {
  import opened Js
  import opened Users

  const TWITTER: string := "twitter_connect"
  const WHATSAPP: string := "whatsapp_verify"
  const TELEGRAM: string := "telegram_join"

  const PENDING: string := "pending"
  const COMPLETED: string := "completed"
  const VERIFIED: string := "verified"
  const REJECTED: string := "rejected"

  /** One entry of `AVAILABLE_TASKS`, reduced to what the logic reads. */
  datatype TaskDef = TaskDef(taskType: string, reward: int, difficulty: int, verificationNote: Option<string>)

  const AVAILABLE_TASKS: seq<TaskDef> := [
    TaskDef(TWITTER, 20, 1, Some("Verification happens automatically after Twitter connection")),
    TaskDef(WHATSAPP, 30, 2, Some("Admin verification can take up to 24 hours. Please be patient!")),
    TaskDef(TELEGRAM, 15, 1, None)
  ]

  const TELEGRAM_GROUP: string := "https://t.me/bonkers_airdrop"
  const TWITTER_AUTHORIZE: string := "https://twitter.com/oauth/authorize?oauth_token=dummy&redirect_uri="

  /** The sum the page shows as "Total Available". */
  function SumRewards(defs: seq<TaskDef>): int
    decreases |defs|
  {
    if defs == [] then 0 else defs[0].reward + SumRewards(defs[1..])
  }

  /** The reward the card of a task type advertises. */
  function AdvertisedReward(taskType: string): Option<int> {
    if taskType == TWITTER then Some(AVAILABLE_TASKS[0].reward)
    else if taskType == WHATSAPP then Some(AVAILABLE_TASKS[1].reward)
    else if taskType == TELEGRAM then Some(AVAILABLE_TASKS[2].reward)
    else None
  }

  /** Twitter 20, WhatsApp 30, Telegram 15: 65 BONK in all. */
  lemma RewardsOnOffer()
    ensures AdvertisedReward(TWITTER) == Some(20)
    ensures AdvertisedReward(WHATSAPP) == Some(30)
    ensures AdvertisedReward(TELEGRAM) == Some(15)
    ensures SumRewards(AVAILABLE_TASKS) == 65
  {
    assert SumRewards(AVAILABLE_TASKS[2..]) == 15;
    assert SumRewards(AVAILABLE_TASKS[1..]) == 45;
  }

  /** What a task record carries besides its status. */
  datatype TaskData = RedirectUrl(redirect_url: string) | PhoneNumber(phone_number: string) | TelegramGroup(telegram_group: string)

  /** One Task record of the store. */
  datatype Task = Task(
    id: nat,
    user_email: string,
    task_type: string,
    status: string,
    reward_tokens: Option<int>,
    task_data: TaskData,
    completed_date: Option<int>)

  /** The user and their task records, newest first as
      `Task.filter({ user_email }, '-created_date')` lists them. */
  datatype Board = Board(user: User, tasks: seq<Task>)

  /** Where `getUserTask(taskType)` finds its record: the first, hence newest,
      record of that type. */
  function FindUserTask(tasks: seq<Task>, taskType: string): (r: Option<nat>)
    ensures r.Some? ==>
      && r.value < |tasks|
      && tasks[r.value].task_type == taskType
      && forall j :: 0 <= j < r.value ==> tasks[j].task_type != taskType
    ensures r.None? ==> forall j :: 0 <= j < |tasks| ==> tasks[j].task_type != taskType
    decreases |tasks|
  {
    if tasks == [] then None
    else if tasks[0].task_type == taskType then Some(0)
    else
      var rest := FindUserTask(tasks[1..], taskType);
      if rest.None? then None else Some(rest.value + 1)
  }

  /** `getUserTask(taskType)`. */
  function GetUserTask(tasks: seq<Task>, taskType: string): Option<Task> {
    var i := FindUserTask(tasks, taskType);
    if i.None? then None else Some(tasks[i.value])
  }

  /** Whether `handleStartTask` creates a record: always for Twitter and
      Telegram, for WhatsApp only when a non-empty number was entered. */
  predicate StartCreates(taskType: string, phoneNumber: Option<string>) {
    taskType == TWITTER || taskType == TELEGRAM || (taskType == WHATSAPP && Truthy(phoneNumber))
  }

  /** `handleStartTask(taskType)`. The answer to the WhatsApp prompt (None
      when cancelled), the store's new id and the already encoded Twitter
      callback address are passed in; the new record is the newest. */
  function HandleStartTask(b: Board, taskType: string, phoneNumber: Option<string>, newId: nat, encodedCallback: string): (r: Board)
    ensures r.user == b.user
    ensures !StartCreates(taskType, phoneNumber) ==> r == b
    ensures StartCreates(taskType, phoneNumber) ==>
      && |r.tasks| == |b.tasks| + 1
      && r.tasks[1..] == b.tasks
      && r.tasks[0].id == newId
      && r.tasks[0].user_email == b.user.email
      && r.tasks[0].task_type == taskType
      && r.tasks[0].status == PENDING
      && r.tasks[0].reward_tokens == AdvertisedReward(taskType)
      && r.tasks[0].completed_date.None?
  {
    if taskType == TWITTER then
      var twitterUrl := TWITTER_AUTHORIZE + encodedCallback;
      Board(b.user, [Task(newId, b.user.email, taskType, PENDING, Some(20), RedirectUrl(twitterUrl), None)] + b.tasks)
    else if taskType == WHATSAPP then
      if Truthy(phoneNumber) then
        Board(b.user, [Task(newId, b.user.email, taskType, PENDING, Some(30), PhoneNumber(phoneNumber.value), None)] + b.tasks)
      else b
    else if taskType == TELEGRAM then
      Board(b.user, [Task(newId, b.user.email, taskType, PENDING, Some(15), TelegramGroup(TELEGRAM_GROUP), None)] + b.tasks)
    else b
  }

  /** Nothing stops a second start: two starts leave two pending records,
      and the newer one is what the card looks at. */
  lemma StartTwiceCreatesTwo(b: Board, taskType: string, phone: Option<string>, id1: nat, id2: nat, cb: string)
    requires StartCreates(taskType, phone)
    ensures var r := HandleStartTask(HandleStartTask(b, taskType, phone, id1, cb), taskType, phone, id2, cb);
      && |r.tasks| == |b.tasks| + 2
      && r.tasks[0].status == PENDING && r.tasks[1].status == PENDING
      && r.tasks[0].task_type == taskType && r.tasks[1].task_type == taskType
      && GetUserTask(r.tasks, taskType) == Some(r.tasks[0])
      && r.tasks[0].id == id2
  {
  }

  /** The status a verification sets: WhatsApp is "verified", the others
      "completed". */
  function VerifiedStatus(taskType: string): string {
    if taskType == WHATSAPP then VERIFIED else COMPLETED
  }

  predicate IsDone(t: Task) {
    t.status == COMPLETED || t.status == VERIFIED
  }

  /** `handleVerifyTask(taskType)` at instant now: with no record of the type
      nothing happens; otherwise the newest record takes its final status and
      the advertised reward is added to both the balance and the earned total.
      The record's current status is not consulted. */
  function HandleVerifyTask(b: Board, taskType: string, now: int): (r: Board)
    ensures FindUserTask(b.tasks, taskType).None? || AdvertisedReward(taskType).None? ==> r == b
    ensures FindUserTask(b.tasks, taskType).Some? && AdvertisedReward(taskType).Some? ==>
      var i := FindUserTask(b.tasks, taskType).value;
      var reward := AdvertisedReward(taskType).value as real;
      && r.tasks == b.tasks[i := b.tasks[i].(status := VerifiedStatus(taskType), completed_date := Some(now))]
      && IsDone(r.tasks[i])
      && r.user.airdrop_balance == Some((if b.user.airdrop_balance.Some? then b.user.airdrop_balance.value else 0.0) + reward)
      && r.user.total_earned == Some((if b.user.total_earned.Some? then b.user.total_earned.value else 0.0) + reward)
      && OnlyChanged(b.user, r.user, {AirdropBalance, TotalEarned})
  {
    var found := FindUserTask(b.tasks, taskType);
    if found.None? then b
    else
      var i := found.value;
      var userTask := b.tasks[i];
      if taskType == TWITTER then Credit(b, i, COMPLETED, now, 20.0)
      else if taskType == WHATSAPP then Credit(b, i, VERIFIED, now, 30.0)
      else if taskType == TELEGRAM then Credit(b, i, COMPLETED, now, 15.0)
      else b
  }

  /** `Task.update(id, { status, completed_date })` followed by
      `updateMyUserData` adding `amount` to the balance and the earned total. */
  function Credit(b: Board, i: nat, status: string, now: int, amount: real): (r: Board)
    requires i < |b.tasks|
    ensures r.tasks == b.tasks[i := b.tasks[i].(status := status, completed_date := Some(now))]
    ensures r.user.airdrop_balance == Some((if b.user.airdrop_balance.Some? then b.user.airdrop_balance.value else 0.0) + amount)
    ensures r.user.total_earned == Some((if b.user.total_earned.Some? then b.user.total_earned.value else 0.0) + amount)
    ensures OnlyChanged(b.user, r.user, {AirdropBalance, TotalEarned})
  {
    var tasks := b.tasks[i := b.tasks[i].(status := status, completed_date := Some(now))];
    var ws := [ SetAirdropBalance(OrNum(b.user.airdrop_balance, 0.0) + amount),
                SetTotalEarned(OrNum(b.user.total_earned, 0.0) + amount) ];
    MergeLiteral(b.user, ws, {AirdropBalance, TotalEarned});
    assert Get(Merge(b.user, ws), AirdropBalance) == Written(ws[0]);
    assert Get(Merge(b.user, ws), TotalEarned) == Written(ws[1]);
    Board(Merge(b.user, ws), tasks)
  }

  /** Verification on its own has no guard: calling it twice credits the
      reward twice, whatever the record's status. */
  lemma VerifyTwiceCreditsTwice(b: Board, taskType: string, t1: int, t2: int)
    requires FindUserTask(b.tasks, taskType).Some? && AdvertisedReward(taskType).Some?
    requires b.user.total_earned.Some?
    ensures HandleVerifyTask(HandleVerifyTask(b, taskType, t1), taskType, t2).user.total_earned
      == Some(b.user.total_earned.value + 2.0 * AdvertisedReward(taskType).value as real)
  {
    var b1 := HandleVerifyTask(b, taskType, t1);
    FindAfterUpdate(b.tasks, taskType, FindUserTask(b.tasks, taskType).value, b1.tasks[FindUserTask(b.tasks, taskType).value]);
  }

  /** Changing a record without changing its type leaves the lookup where it was. */
  lemma {:induction false} FindAfterUpdate(tasks: seq<Task>, taskType: string, i: nat, x: Task)
    requires i < |tasks| && x.task_type == tasks[i].task_type
    ensures FindUserTask(tasks[i := x], taskType) == FindUserTask(tasks, taskType)
    decreases |tasks|
  {
    if tasks != [] && i > 0 {
      assert tasks[i := x][1..] == tasks[1..][i - 1 := x];
      FindAfterUpdate(tasks[1..], taskType, i - 1, x);
    }
  }

  /** `getCompletedTasks()`: how many records are completed or verified. */
  function CompletedCount(tasks: seq<Task>): (n: nat)
    ensures n <= |tasks|
    decreases |tasks|
  {
    if tasks == [] then 0 else (if IsDone(tasks[0]) then 1 else 0) + CompletedCount(tasks[1..])
  }

  /** `getTotalRewards()`: the reward tokens of those records, missing as 0. */
  function TotalRewards(tasks: seq<Task>): int
    decreases |tasks|
  {
    if tasks == [] then 0
    else (if IsDone(tasks[0]) then OrInt(tasks[0].reward_tokens, 0) else 0) + TotalRewards(tasks[1..])
  }

  function Tally(t: Task): int {
    if IsDone(t) then OrInt(t.reward_tokens, 0) else 0
  }

  /** The two tallies are sums over the records: one record contributes 1 and
      its reward (missing as 0) when done and nothing otherwise, and the
      tallies of two runs of records add up. */
  lemma {:induction false} TalliesAreSums(xs: seq<Task>, ys: seq<Task>, t: Task)
    ensures CompletedCount([t]) == (if IsDone(t) then 1 else 0)
    ensures TotalRewards([t]) == (if IsDone(t) then OrInt(t.reward_tokens, 0) else 0)
    ensures CompletedCount(xs + ys) == CompletedCount(xs) + CompletedCount(ys)
    ensures TotalRewards(xs + ys) == TotalRewards(xs) + TotalRewards(ys)
    decreases |xs|
  {
    assert [t][1..] == [];
    if xs != [] {
      assert (xs + ys)[1..] == xs[1..] + ys;
      assert (xs + ys)[0] == xs[0];
      TalliesAreSums(xs[1..], ys, t);
    } else {
      assert xs + ys == ys;
    }
  }

  /** Replacing one record moves the tallies by exactly that record's change. */
  lemma {:induction false} TalliesAfterUpdate(tasks: seq<Task>, i: nat, x: Task)
    requires i < |tasks|
    ensures CompletedCount(tasks[i := x]) == CompletedCount(tasks) - (if IsDone(tasks[i]) then 1 else 0) + (if IsDone(x) then 1 else 0)
    ensures TotalRewards(tasks[i := x]) == TotalRewards(tasks) - Tally(tasks[i]) + Tally(x)
    decreases |tasks|
  {
    if i > 0 {
      assert tasks[i := x][1..] == tasks[1..][i - 1 := x];
      TalliesAfterUpdate(tasks[1..], i - 1, x);
    }
  }

  /** Verifying a pending record that was created by starting the task moves
      the page's tallies in step with the ledger: one more task done, and the
      "BONK Earned" total grows by exactly the amount credited. */
  lemma VerifyMovesTalliesWithLedger(b: Board, taskType: string, now: int)
    requires FindUserTask(b.tasks, taskType).Some? && AdvertisedReward(taskType).Some?
    requires GetUserTask(b.tasks, taskType).value.status == PENDING
    requires GetUserTask(b.tasks, taskType).value.reward_tokens == AdvertisedReward(taskType)
    requires b.user.total_earned.Some?
    ensures var r := HandleVerifyTask(b, taskType, now);
      && CompletedCount(r.tasks) == CompletedCount(b.tasks) + 1
      && TotalRewards(r.tasks) == TotalRewards(b.tasks) + AdvertisedReward(taskType).value
      && r.user.total_earned.value - b.user.total_earned.value == AdvertisedReward(taskType).value as real
  {
    var i := FindUserTask(b.tasks, taskType).value;
    var r := HandleVerifyTask(b, taskType, now);
    TalliesAfterUpdate(b.tasks, i, r.tasks[i]);
  }
}
