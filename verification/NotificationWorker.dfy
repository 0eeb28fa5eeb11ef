/** The notification worker: one handler call per attempt, retries, and the dead-letter copy. */
module NotificationWorker {
  import opened Options
  import opened SmsCredits

  datatype Channel = Email | Sms | WhatsApp | Push | Unknown

  /** What the provider does when asked to send. */
  datatype Reply = Answer(success: bool, messageId: Option<string>) | Rejects

  /** The first store operation of an attempt that fails, if any. */
  datatype Fault = NoFault | AtTemplate | AtFind | AtUpdate | AtCampaign | AtRecount | AtLog

  /** One attempt: the provider's reply, a store fault, whether the notification row is gone, and the clock. */
  datatype Attempt = Attempt(reply: Reply, fault: Fault, rowGone: bool, now: int)

  datatype Job = Job(id: nat, channel: Channel, hasTemplate: bool, hasOrg: bool, send: Option<nat>, attempts: Option<nat>)

  datatype NotificationStatus = Queued | Sent | Failed

  datatype NotificationRow = NotificationRow(status: NotificationStatus, sentAt: Option<int>, messageId: Option<string>)

  datatype SendStatus = SendQueued | Sending | SendSent | SendFailed

  datatype SendRow = SendRow(sameOrg: bool, campaign: nat, status: SendStatus, sentAt: Option<int>)

  datatype DeadLetter = DeadLetter(originalJob: nat, attemptsMade: nat)

  datatype Store = Store(notification: NotificationRow, sends: map<nat, SendRow>, sentCounts: map<nat, nat>,
                         providerCalls: nat, recounts: nat, log: seq<bool>)

  datatype Outcome = Completed | Threw

  predicate IsPending(s: SendStatus) {
    s == SendQueued || s == Sending
  }

  predicate CallsProvider(job: Job) {
    job.channel.Email? || job.channel.Sms? || job.channel.WhatsApp?
  }

  /** Push and unknown channels answer with a failure of their own. */
  function ReplyOf(job: Job, attempt: Attempt): Reply {
    if CallsProvider(job) then attempt.reply else Answer(false, None)
  }

  function MarkNotification(row: NotificationRow, success: bool, messageId: Option<string>, now: int): NotificationRow {
    NotificationRow(if success then Sent else Failed,
                    if success then Some(now) else row.sentAt,
                    if messageId.Some? && messageId.value != "" then messageId else row.messageId)
  }

  predicate FindsSend(store: Store, id: nat) {
    id in store.sends && store.sends[id].sameOrg
  }

  /** The guarded update of the campaign send row. */
  function MarkSend(row: SendRow, success: bool, now: int): SendRow {
    if row.sameOrg && IsPending(row.status)
    then row.(status := if success then SendSent else SendFailed, sentAt := if success then Some(now) else row.sentAt)
    else row
  }

  /** The campaign transaction: it rolls back when the campaign to count on is missing. */
  function CampaignTransaction(store: Store, id: nat, success: bool, now: int): Option<Store> {
    var marked := if id in store.sends then store.(sends := store.sends[id := MarkSend(store.sends[id], success, now)]) else store;
    if !success || !FindsSend(store, id) then Some(marked)
    else
      var campaign := store.sends[id].campaign;
      if campaign !in store.sentCounts then None
      else Some(marked.(sentCounts := store.sentCounts[campaign := store.sentCounts[campaign] + 1]))
  }

  /** The job handler. */
  function Handle(store: Store, job: Job, attempt: Attempt): (Store, Outcome) {
    if job.hasTemplate && attempt.fault == AtTemplate then (store, Threw)
    else
      var asked := if CallsProvider(job) then store.(providerCalls := store.providerCalls + 1) else store;
      var reply := ReplyOf(job, attempt);
      if reply.Rejects? || attempt.fault == AtFind then (asked, Threw)
      else if attempt.rowGone then (asked, Completed)
      else if attempt.fault == AtUpdate then (asked, Threw)
      else AfterUpdate(asked.(notification := MarkNotification(store.notification, reply.success, reply.messageId, attempt.now)), job, attempt, reply)
  }

  predicate HasCampaign(job: Job) {
    job.send.Some? && job.hasOrg
  }

  function AfterUpdate(store: Store, job: Job, attempt: Attempt, reply: Reply): (Store, Outcome)
    requires reply.Answer?
  {
    if !HasCampaign(job) then AfterCampaign(store, job, attempt, reply)
    else if attempt.fault == AtCampaign then (store, Threw)
    else
      match CampaignTransaction(store, job.send.value, reply.success, attempt.now)
      case None => (store, Threw)
      case Some(committed) => AfterCampaign(committed, job, attempt, reply)
  }

  function AfterCampaign(store: Store, job: Job, attempt: Attempt, reply: Reply): (Store, Outcome)
    requires reply.Answer?
  {
    var recount := job.channel.Sms? && job.hasOrg && reply.success && IsBillableId(reply.messageId);
    if recount && attempt.fault == AtRecount then (store, Threw)
    else
      var counted := if recount then store.(recounts := store.recounts + 1) else store;
      if attempt.fault == AtLog then (counted, Threw)
      else (counted.(log := counted.log + [reply.success]), if reply.success then Completed else Threw)
  }

  /** The worker's tables and the provider's call count, updated in place by the handler. */
  class Worker {
    var notification: NotificationRow
    var sends: map<nat, SendRow>
    var sentCounts: map<nat, nat>
    var providerCalls: nat
    var recounts: nat
    var log: seq<bool>

    function Tables(): Store
      reads this
    {
      Store(notification, sends, sentCounts, providerCalls, recounts, log)
    }

    method ProcessJob(job: Job, attempt: Attempt) returns (outcome: Outcome)
      modifies this
      ensures (Tables(), outcome) == Handle(old(Tables()), job, attempt)
    {
      hide IsBillableId, MarkNotification, CampaignTransaction, MarkSend;
      if job.hasTemplate && attempt.fault == AtTemplate {
        return Threw;
      }
      var result := Answer(false, None);
      if CallsProvider(job) {
        providerCalls := providerCalls + 1;
        result := attempt.reply;
      }
      if result.Rejects? || attempt.fault == AtFind {
        return Threw;
      }
      if attempt.rowGone {
        return Completed;
      }
      if attempt.fault == AtUpdate {
        return Threw;
      }
      notification := MarkNotification(notification, result.success, result.messageId, attempt.now);
      if job.send.Some? && job.hasOrg {
        var committed := UpdateCampaign(job.send.value, result.success, attempt.now, attempt.fault == AtCampaign);
        if !committed {
          return Threw;
        }
      }
      if job.channel.Sms? && job.hasOrg && result.success && IsBillableId(result.messageId) {
        if attempt.fault == AtRecount {
          return Threw;
        }
        recounts := recounts + 1;
      }
      if attempt.fault == AtLog {
        return Threw;
      }
      log := log + [result.success];
      outcome := if result.success then Completed else Threw;
    }

    /** One transaction: both writes take effect, or neither. */
    method UpdateCampaign(id: nat, success: bool, now: int, fault: bool) returns (committed: bool)
      modifies `sends, `sentCounts
      ensures var t := if fault then None else CampaignTransaction(old(Tables()), id, success, now);
        committed == t.Some? && Tables() == if committed then t.value else old(Tables())
    {
      if fault {
        return false;
      }
      var found := id in sends && sends[id].sameOrg;
      if success && found && sends[id].campaign !in sentCounts {
        return false;
      }
      if success && found {
        var campaign := sends[id].campaign;
        sentCounts := sentCounts[campaign := sentCounts[campaign] + 1];
      }
      if id in sends {
        sends := sends[id := MarkSend(sends[id], success, now)];
      }
      return true;
    }
  }

  // ----- Attempts in a row -----

  /** The tables after the first `k` handler calls of the job. */
  function After(store: Store, job: Job, plan: nat -> Attempt, k: nat): Store {
    if k == 0 then store else Handle(After(store, job, plan, k - 1), job, plan(k - 1)).0
  }

  function OutcomeAt(store: Store, job: Job, plan: nat -> Attempt, k: nat): Outcome {
    Handle(After(store, job, plan, k), job, plan(k)).1
  }

  lemma CallsInAttempt(store: Store, job: Job, attempt: Attempt)
    ensures Handle(store, job, attempt).0.providerCalls
         == store.providerCalls
            + if (job.channel.Email? || job.channel.Sms? || job.channel.WhatsApp?) && !(job.hasTemplate && attempt.fault == AtTemplate)
              then 1 else 0
  {
    hide IsBillableId, MarkSend, MarkNotification;
  }

  /** Each handler call asks the provider at most once, and not at all on push or unknown channels. */
  lemma {:induction false} OneCallPerAttempt(store: Store, job: Job, plan: nat -> Attempt, k: nat)
    ensures store.providerCalls <= After(store, job, plan, k).providerCalls <= store.providerCalls + k
    ensures job.channel.Push? || job.channel.Unknown? ==> After(store, job, plan, k).providerCalls == store.providerCalls
  {
    hide Handle;
    if k > 0 {
      OneCallPerAttempt(store, job, plan, k - 1);
      CallsInAttempt(After(store, job, plan, k - 1), job, plan(k - 1));
    }
  }

  /** How the attempt's campaign transaction ends: not reached or rolled back, or committed with this result. */
  function Commits(store: Store, job: Job, attempt: Attempt): Option<bool> {
    var reply := ReplyOf(job, attempt);
    if (job.hasTemplate && attempt.fault == AtTemplate) || reply.Rejects? || attempt.rowGone
      || attempt.fault in {AtFind, AtUpdate, AtCampaign} || !HasCampaign(job) then None
    else if CampaignTransaction(store, job.send.value, reply.success, attempt.now).None? then None
    else Some(reply.success)
  }

  /** What one attempt does to the send rows and the campaign counters. */
  lemma AttemptOnCampaign(store: Store, job: Job, attempt: Attempt)
    ensures var after := Handle(store, job, attempt).0;
      match Commits(store, job, attempt)
      case None => after.sends == store.sends && after.sentCounts == store.sentCounts
      case Some(success) =>
        && HasCampaign(job)
        && CampaignTransaction(store, job.send.value, success, attempt.now).Some?
        && var t := CampaignTransaction(store, job.send.value, success, attempt.now).value;
        after.sends == t.sends && after.sentCounts == t.sentCounts
  {
    hide AfterUpdate, CampaignTransaction, MarkNotification;
    var reply := ReplyOf(job, attempt);
    if reply.Answer? {
      var asked := if CallsProvider(job) then store.(providerCalls := store.providerCalls + 1) else store;
      var marked := asked.(notification := MarkNotification(store.notification, reply.success, reply.messageId, attempt.now));
      UpdateOnCampaign(marked, job, attempt, reply);
      if HasCampaign(job) { SameTransaction(store, marked, job.send.value, reply.success, attempt.now); }
    }
  }

  lemma UpdateOnCampaign(store: Store, job: Job, attempt: Attempt, reply: Reply)
    requires reply.Answer?
    ensures var after := AfterUpdate(store, job, attempt, reply).0;
      if !HasCampaign(job) || attempt.fault == AtCampaign then after.sends == store.sends && after.sentCounts == store.sentCounts
      else
        match CampaignTransaction(store, job.send.value, reply.success, attempt.now)
        case None => after.sends == store.sends && after.sentCounts == store.sentCounts
        case Some(t) => after.sends == t.sends && after.sentCounts == t.sentCounts
  {
    hide IsBillableId, CampaignTransaction;
  }

  /** The transaction looks at the send rows and the counters alone. */
  lemma SameTransaction(s: Store, t: Store, id: nat, success: bool, now: int)
    requires s.sends == t.sends && s.sentCounts == t.sentCounts
    ensures var a, b := CampaignTransaction(s, id, success, now), CampaignTransaction(t, id, success, now);
      && (a.None? <==> b.None?) && (a.Some? ==> a.value.sends == b.value.sends && a.value.sentCounts == b.value.sentCounts)
  {
    hide MarkSend;
  }

  /** The time on the send row, the row of another organisation, and the campaign that is not there. */
  lemma AttemptOnSend(store: Store, job: Job, attempt: Attempt)
    requires HasCampaign(job) && job.send.value in store.sends
    ensures var id, after := job.send.value, Handle(store, job, attempt).0;
      var was, c := store.sends[id], Commits(store, job, attempt);
      && id in after.sends
      && (c.Some? && was.sameOrg && IsPending(was.status) ==>
            after.sends[id] == was.(status := if c.value then SendSent else SendFailed, sentAt := if c.value then Some(attempt.now) else was.sentAt))
      && (!was.sameOrg ==> after.sends == store.sends && after.sentCounts == store.sentCounts)
      && (was.sameOrg && was.campaign !in store.sentCounts && attempt.reply.Answer? && CallsProvider(job) && attempt.reply.success ==>
            c.None? && after.sends == store.sends && (Handle(store, job, attempt).1 == Completed ==> attempt.rowGone))
  {
    hide IsBillableId, MarkNotification, Handle;
    AttemptOnCampaign(store, job, attempt);
    AttemptEnds(store, job, attempt);
    assert store.sends[job.send.value := store.sends[job.send.value]] == store.sends;
  }

  lemma PendingIsQueuedOrSending(s: SendStatus)
    ensures IsPending(s) <==> s == SendQueued || s == Sending
  {
  }

  /** A send row that has left queued and sending never changes again. */
  lemma {:induction false} SettledSendIsFinal(store: Store, job: Job, plan: nat -> Attempt, i: nat, k: nat, id: nat)
    requires i <= k && id in After(store, job, plan, i).sends
    requires !IsPending(After(store, job, plan, i).sends[id].status)
    ensures id in After(store, job, plan, k).sends
    ensures After(store, job, plan, k).sends[id] == After(store, job, plan, i).sends[id]
  {
    hide Handle, Commits;
    if i < k {
      SettledSendIsFinal(store, job, plan, i, k - 1, id);
      AttemptOnCampaign(After(store, job, plan, k - 1), job, plan(k - 1));
    }
  }

  /** The first committed result of the first `k` attempts. */
  function FirstCommit(store: Store, job: Job, plan: nat -> Attempt, k: nat): Option<bool> {
    if k == 0 then None
    else
      var earlier := FirstCommit(store, job, plan, k - 1);
      if earlier.Some? then earlier else Commits(After(store, job, plan, k - 1), job, plan(k - 1))
  }

  /** The number of committed successes. */
  function Successes(store: Store, job: Job, plan: nat -> Attempt, k: nat): nat {
    if k == 0 then 0
    else Successes(store, job, plan, k - 1) + if Commits(After(store, job, plan, k - 1), job, plan(k - 1)) == Some(true) then 1 else 0
  }

  /** A job whose send row is there, and whose campaign has a counter. */
  predicate Tracked(store: Store, job: Job) {
    && HasCampaign(job) && FindsSend(store, job.send.value)
    && store.sends[job.send.value].campaign in store.sentCounts
  }

  /**
   * A pending send row shows the first committed result and keeps it, a settled one stays; the campaign counter rises by one for every
   * committed success, the first or a later one; the other rows and counters stay as they were.
   */
  lemma {:induction false} RowKeepsFirstCounterCountsAll(store: Store, job: Job, plan: nat -> Attempt, k: nat)
    requires Tracked(store, job)
    ensures var id, after := job.send.value, After(store, job, plan, k);
      && after.sends.Keys == store.sends.Keys && after.sentCounts.Keys == store.sentCounts.Keys
      && after.sends[id].sameOrg && after.sends[id].campaign == store.sends[id].campaign
      && (if FirstCommit(store, job, plan, k).None? || !IsPending(store.sends[id].status) then after.sends[id] == store.sends[id]
          else after.sends[id].status == if FirstCommit(store, job, plan, k).value then SendSent else SendFailed)
      && after.sentCounts[store.sends[id].campaign] == store.sentCounts[store.sends[id].campaign] + Successes(store, job, plan, k)
      && (forall other :: other in store.sends && other != id ==> after.sends[other] == store.sends[other])
      && (forall c :: c in store.sentCounts && c != store.sends[id].campaign ==> after.sentCounts[c] == store.sentCounts[c])
  {
    hide Handle, Commits;
    if k > 0 {
      RowKeepsFirstCounterCountsAll(store, job, plan, k - 1);
      AttemptOnCampaign(After(store, job, plan, k - 1), job, plan(k - 1));
    }
  }

  /** The row went from pending to sent. */
  predicate NewlySent(before: SendRow, after: SendRow) {
    IsPending(before.status) && after.status == SendSent
  }

  /** The counter rises as the row says exactly when the successes are none, or one that was the first commit on a pending row. */
  lemma CounterAgreesWithRow(store: Store, job: Job, plan: nat -> Attempt, k: nat)
    requires Tracked(store, job)
    ensures var id, after := job.send.value, After(store, job, plan, k);
      && id in after.sends && store.sends[id].campaign in after.sentCounts
      && (after.sentCounts[store.sends[id].campaign]
            == store.sentCounts[store.sends[id].campaign] + (if NewlySent(store.sends[id], after.sends[id]) then 1 else 0)
          <==> (Successes(store, job, plan, k)
                == if IsPending(store.sends[id].status) && FirstCommit(store, job, plan, k) == Some(true) then 1 else 0))
  {
    hide Handle, Commits, After;
    RowKeepsFirstCounterCountsAll(store, job, plan, k);
  }

  /** Refused once, then accepted: the row stays failed while the counter says one was sent. */
  lemma FailedRowIsCountedAsSent(store: Store, job: Job, plan: nat -> Attempt, id: Option<string>)
    requires Tracked(store, job) && IsPending(store.sends[job.send.value].status) && CallsProvider(job)
    requires plan(0) == Attempt(Answer(false, None), NoFault, false, 0)
    requires plan(1) == Attempt(Answer(true, id), NoFault, false, 1)
    ensures OutcomeAt(store, job, plan, 0) == Threw && OutcomeAt(store, job, plan, 1) == Completed
    ensures var send, after := job.send.value, After(store, job, plan, 2);
      && after.sends[send].status == SendFailed
      && after.sentCounts[store.sends[send].campaign] == store.sentCounts[store.sends[send].campaign] + 1
  {
    hide Handle, Commits, OutcomeAt;
    RowKeepsFirstCounterCountsAll(store, job, plan, 1);
    RowKeepsFirstCounterCountsAll(store, job, plan, 2);
    assert After(store, job, plan, 0) == store;
    Answered(store, job, plan(0));
    Answered(After(store, job, plan, 1), job, plan(1));
    assert OutcomeAt(store, job, plan, 0) == Handle(store, job, plan(0)).1 by { OutcomeOf(store, job, plan, 0); }
    assert OutcomeAt(store, job, plan, 1) == Handle(After(store, job, plan, 1), job, plan(1)).1 by { OutcomeOf(store, job, plan, 1); }
    assert FirstCommit(store, job, plan, 1) == Some(false);
    assert Successes(store, job, plan, 1) == 0;
  }

  lemma OutcomeOf(store: Store, job: Job, plan: nat -> Attempt, k: nat)
    ensures OutcomeAt(store, job, plan, k) == Handle(After(store, job, plan, k), job, plan(k)).1
  {
  }

  /** An attempt without faults ends, and commits, as the provider answered. */
  lemma Answered(store: Store, job: Job, attempt: Attempt)
    requires HasCampaign(job) && CallsProvider(job) && FindsSend(store, job.send.value)
    requires store.sends[job.send.value].campaign in store.sentCounts
    requires attempt.reply.Answer? && attempt.fault == NoFault && !attempt.rowGone
    ensures Commits(store, job, attempt) == Some(attempt.reply.success)
    ensures Handle(store, job, attempt).1 == if attempt.reply.success then Completed else Threw
  {
    hide IsBillableId, MarkSend, MarkNotification;
  }

  // ----- The notification row and the log -----

  /** The attempt gets as far as writing the notification row. */
  predicate Writes(job: Job, attempt: Attempt) {
    && !(job.hasTemplate && attempt.fault == AtTemplate)
    && ReplyOf(job, attempt).Answer? && !attempt.rowGone && attempt.fault != AtFind && attempt.fault != AtUpdate
  }

  predicate Succeeds(job: Job, attempt: Attempt) {
    ReplyOf(job, attempt).Answer? && ReplyOf(job, attempt).success
  }

  /** The last of the first `k` attempts that wrote the row, or that wrote a success to it. */
  function LastWrite(job: Job, plan: nat -> Attempt, k: nat, onlySuccess: bool): Option<Attempt> {
    if k == 0 then None
    else if Writes(job, plan(k - 1)) && (onlySuccess ==> Succeeds(job, plan(k - 1))) then Some(plan(k - 1))
    else LastWrite(job, plan, k - 1, onlySuccess)
  }

  lemma AttemptOnRow(store: Store, job: Job, attempt: Attempt)
    ensures var reply := ReplyOf(job, attempt);
      Handle(store, job, attempt).0.notification
      == if Writes(job, attempt) then MarkNotification(store.notification, reply.success, reply.messageId, attempt.now) else store.notification
  {
    hide IsBillableId, MarkSend, MarkNotification;
  }

  /** Unlike the send row, the notification row shows the last answer, and the time of the last success. */
  lemma {:induction false} RowShowsLastAnswer(store: Store, job: Job, plan: nat -> Attempt, k: nat)
    ensures var row, last, good := After(store, job, plan, k).notification, LastWrite(job, plan, k, false), LastWrite(job, plan, k, true);
      && row.status == (if last.None? then store.notification.status else if Succeeds(job, last.value) then Sent else Failed)
      && row.sentAt == (if good.None? then store.notification.sentAt else Some(good.value.now))
  {
    hide Handle, ReplyOf;
    if k > 0 {
      RowShowsLastAnswer(store, job, plan, k - 1);
      AttemptOnRow(After(store, job, plan, k - 1), job, plan(k - 1));
    }
  }

  /** The attempt reaches the row and brings a message id that is not empty. */
  predicate BringsId(job: Job, attempt: Attempt) {
    && Writes(job, attempt)
    && (ReplyOf(job, attempt).messageId.Some? && ReplyOf(job, attempt).messageId.value != "")
  }

  /** The id brought by the last of the first `k` attempts that brought one. */
  function LastId(job: Job, plan: nat -> Attempt, k: nat): Option<string> {
    if k == 0 then None
    else if BringsId(job, plan(k - 1)) then ReplyOf(job, plan(k - 1)).messageId
    else LastId(job, plan, k - 1)
  }

  /** Over any run the row carries the last message id that was brought, by which a delivery callback will find it. */
  lemma {:induction false} RowKeepsLastId(store: Store, job: Job, plan: nat -> Attempt, k: nat)
    ensures After(store, job, plan, k).notification.messageId
         == if LastId(job, plan, k).Some? then LastId(job, plan, k) else store.notification.messageId
  {
    hide Handle, ReplyOf;
    if k > 0 {
      RowKeepsLastId(store, job, plan, k - 1);
      AttemptOnRow(After(store, job, plan, k - 1), job, plan(k - 1));
    }
  }

  /** What the provider is taken to have answered: on push and unknown channels a failure, elsewhere its own reply. */
  lemma AnswerIsProviders(job: Job, attempt: Attempt)
    ensures ReplyOf(job, attempt)
         == if job.channel.Push? || job.channel.Unknown? then Answer(false, None) else attempt.reply
  {
  }

  /** The usage of an organisation is recounted for a successful SMS with a billable id. */
  predicate NeedsRecount(job: Job, attempt: Attempt) {
    job.channel.Sms? && job.hasOrg && Succeeds(job, attempt) && IsBillableId(ReplyOf(job, attempt).messageId)
  }

  /** The attempt gets through the campaign transaction, if the job has one. */
  predicate PassesCampaign(store: Store, job: Job, attempt: Attempt) {
    Writes(job, attempt) && (job.send.Some? && job.hasOrg ==> Commits(store, job, attempt).Some?)
  }

  /** The attempt gets as far as the log. */
  predicate Logs(store: Store, job: Job, attempt: Attempt) {
    && PassesCampaign(store, job, attempt) && attempt.fault != AtLog
    && (NeedsRecount(job, attempt) ==> attempt.fault != AtRecount)
  }

  /** The row is gone, and nothing failed before that was found. */
  predicate FindsRowGone(job: Job, attempt: Attempt) {
    && attempt.rowGone && !(job.hasTemplate && attempt.fault == AtTemplate)
    && ReplyOf(job, attempt).Answer? && attempt.fault != AtFind
  }

  /** Recount, log and outcome of an attempt: it completes exactly if it finds the row gone or logs a success. */
  lemma AttemptEnds(store: Store, job: Job, attempt: Attempt)
    ensures var (after, outcome) := Handle(store, job, attempt);
      && after.recounts == store.recounts
         + (if PassesCampaign(store, job, attempt) && NeedsRecount(job, attempt) && attempt.fault != AtRecount then 1 else 0)
      && after.log == (if Logs(store, job, attempt) then store.log + [Succeeds(job, attempt)] else store.log)
      && (outcome == Completed <==> FindsRowGone(job, attempt) || (Logs(store, job, attempt) && Succeeds(job, attempt)))
  {
    hide IsBillableId, MarkSend, MarkNotification, AfterUpdate, CampaignTransaction;
    var reply := ReplyOf(job, attempt);
    if reply.Answer? {
      var asked := if CallsProvider(job) then store.(providerCalls := store.providerCalls + 1) else store;
      var marked := asked.(notification := MarkNotification(store.notification, reply.success, reply.messageId, attempt.now));
      UpdateEnds(marked, job, attempt, reply);
      if HasCampaign(job) { SameTransaction(store, marked, job.send.value, reply.success, attempt.now); }
    }
  }

  lemma UpdateEnds(store: Store, job: Job, attempt: Attempt, reply: Reply)
    requires reply.Answer?
    ensures var (after, outcome) := AfterUpdate(store, job, attempt, reply);
      var passes := HasCampaign(job) ==>
        attempt.fault != AtCampaign && CampaignTransaction(store, job.send.value, reply.success, attempt.now).Some?;
      var recounts := job.channel.Sms? && job.hasOrg && reply.success && IsBillableId(reply.messageId);
      var logs := passes && attempt.fault != AtLog && (recounts ==> attempt.fault != AtRecount);
      && after.recounts == store.recounts + (if passes && recounts && attempt.fault != AtRecount then 1 else 0)
      && after.log == (if logs then store.log + [reply.success] else store.log)
      && (outcome == Completed <==> logs && reply.success)
  {
    hide IsBillableId;
    if HasCampaign(job) { TransactionKeepsRest(store, job.send.value, reply.success, attempt.now); }
  }

  lemma TransactionKeepsRest(store: Store, id: nat, success: bool, now: int)
    ensures var t := CampaignTransaction(store, id, success, now);
      t.Some? ==> t.value.recounts == store.recounts && t.value.log == store.log
  {
  }

  /**
   * A completed attempt either found the row gone, and then changed nothing but the provider's count, or left the row
   * sent; an attempt that gets as far as the log enters there whether it completes.
   */
  lemma CompletedMeansSent(store: Store, job: Job, attempt: Attempt)
    ensures var (after, outcome) := Handle(store, job, attempt);
      && (outcome == Completed && attempt.rowGone ==> after == store.(providerCalls := after.providerCalls))
      && (outcome == Completed && !attempt.rowGone ==>
            after.notification.status == Sent && after.notification.sentAt == Some(attempt.now) && after.log == store.log + [true])
      && (after.log == store.log || after.log == store.log + [outcome == Completed])
      && (outcome == Completed ==> ReplyOf(job, attempt).Answer? && (attempt.rowGone || Succeeds(job, attempt)))
      && (Succeeds(job, attempt) && attempt.fault == NoFault && !attempt.rowGone
          && (HasCampaign(job) && FindsSend(store, job.send.value) ==> store.sends[job.send.value].campaign in store.sentCounts)
          ==> outcome == Completed)
  {
    hide IsBillableId, MarkSend;
  }

  // ----- Retries and the dead-letter queue -----

  const DEFAULT_NOTIFICATION_JOB_ATTEMPTS := 3

  /** resolveMaxJobAttempts. */
  function MaxJobAttempts(job: Job): nat {
    match job.attempts
    case Some(n) => n
    case None => DEFAULT_NOTIFICATION_JOB_ATTEMPTS
  }

  /** isNotificationJobExhausted. */
  predicate IsExhausted(job: Job, attemptsMade: nat) {
    attemptsMade >= MaxJobAttempts(job)
  }

  /** copyExhaustedNotificationJobToDeadLetter, as the `failed` handler calls it. */
  function CopyToDeadLetter(dead: seq<DeadLetter>, job: Job, attemptsMade: nat): seq<DeadLetter> {
    if IsExhausted(job, attemptsMade) then dead + [DeadLetter(job.id, attemptsMade)] else dead
  }

  /** The dead-letter queue, to which the `failed` handler appends. */
  class DeadLetterQueue {
    var jobs: seq<DeadLetter>

    method CopyExhausted(job: Job, attemptsMade: nat) returns (copied: bool)
      modifies this
      ensures jobs == CopyToDeadLetter(old(jobs), job, attemptsMade)
      ensures copied <==> IsExhausted(job, attemptsMade)
    {
      if !IsExhausted(job, attemptsMade) {
        return false;
      }
      jobs := jobs + [DeadLetter(job.id, attemptsMade)];
      return true;
    }
  }

  /** How often the queue runs the job: at least once, and `queueDefault` times when the job does not say. */
  function Allowed(job: Job, queueDefault: nat): nat {
    match job.attempts
    case Some(n) => if n == 0 then 1 else n
    case None => if queueDefault == 0 then 1 else queueDefault
  }

  /** A job runs at least once, whatever is stated, and otherwise as often as stated. */
  lemma RunsAsStated(job: Job, queueDefault: nat)
    ensures Allowed(job, queueDefault) >= 1
    ensures job.attempts.Some? && job.attempts.value >= 1 ==> Allowed(job, queueDefault) == job.attempts.value
    ensures job.attempts.None? && queueDefault >= 1 ==> Allowed(job, queueDefault) == queueDefault
    ensures job.attempts == Some(0) || (job.attempts.None? && queueDefault == 0) ==> Allowed(job, queueDefault) == 1
  {
  }

  datatype JobResult = JobResult(made: nat, completed: bool, dead: seq<DeadLetter>)

  /** The queue: run, and after a throw report the failure and try again while attempts are left. */
  function RunJob(store: Store, job: Job, plan: nat -> Attempt, queueDefault: nat, made: nat, dead: seq<DeadLetter>): JobResult
    decreases Allowed(job, queueDefault) - made
  {
    if made >= Allowed(job, queueDefault) then JobResult(made, false, dead)
    else if OutcomeAt(store, job, plan, made) == Completed then JobResult(made + 1, true, dead)
    else RunJob(store, job, plan, queueDefault, made + 1, CopyToDeadLetter(dead, job, made + 1))
  }

  /** Every attempt from the first on threw. */
  ghost predicate AllThrew(store: Store, job: Job, plan: nat -> Attempt, n: nat) {
    forall k :: 0 <= k < n ==> OutcomeAt(store, job, plan, k) == Threw
  }

  /** The dead letters of a job stopped after `made` throws: one for each throw at or past the threshold. */
  function DeadLetters(job: Job, made: nat): seq<DeadLetter> {
    if made == 0 then [] else CopyToDeadLetter(DeadLetters(job, made - 1), job, made)
  }

  lemma {:induction false} RunJobResult(store: Store, job: Job, plan: nat -> Attempt, queueDefault: nat, made: nat)
    requires made <= Allowed(job, queueDefault) && AllThrew(store, job, plan, made)
    ensures var r := RunJob(store, job, plan, queueDefault, made, DeadLetters(job, made));
      && r.made <= Allowed(job, queueDefault)
      && (r.completed <==> !AllThrew(store, job, plan, Allowed(job, queueDefault)))
      && (r.completed ==> r.made > made && OutcomeAt(store, job, plan, r.made - 1) == Completed && AllThrew(store, job, plan, r.made - 1))
      && r.dead == DeadLetters(job, if r.completed then r.made - 1 else Allowed(job, queueDefault))
    decreases Allowed(job, queueDefault) - made
  {
    hide Handle;
    if made < Allowed(job, queueDefault) && OutcomeAt(store, job, plan, made) == Threw {
      assert AllThrew(store, job, plan, made + 1);
      RunJobResult(store, job, plan, queueDefault, made + 1);
    }
  }

  lemma {:induction false} BelowThreshold(job: Job, made: nat)
    requires made < MaxJobAttempts(job)
    ensures DeadLetters(job, made) == []
  {
    if made > 0 { BelowThreshold(job, made - 1); }
  }

  lemma {:induction false} PastThreshold(job: Job, made: nat)
    requires made >= MaxJobAttempts(job) >= 1
    ensures |DeadLetters(job, made)| == made - MaxJobAttempts(job) + 1
  {
    if made == MaxJobAttempts(job) {
      BelowThreshold(job, made - 1);
    } else {
      PastThreshold(job, made - 1);
    }
  }

  /** With its attempts stated, a job is dead-lettered once if every allowed attempt threw, and otherwise never. */
  lemma DeadLetteredIffExhausted(store: Store, job: Job, plan: nat -> Attempt, queueDefault: nat)
    requires job.attempts.Some?
    ensures var r := RunJob(store, job, plan, queueDefault, 0, []);
      r.dead == if AllThrew(store, job, plan, Allowed(job, queueDefault)) then [DeadLetter(job.id, Allowed(job, queueDefault))] else []
  {
    hide Handle, OutcomeAt, AllThrew;
    assert AllThrew(store, job, plan, 0) by { NothingYet(store, job, plan); }
    RunJobResult(store, job, plan, queueDefault, 0);
    var r := RunJob(store, job, plan, queueDefault, 0, []);
    var n := Allowed(job, queueDefault);
    if r.completed {
      if r.made - 1 < MaxJobAttempts(job) { BelowThreshold(job, r.made - 1); }
    } else if n - 1 < MaxJobAttempts(job) {
      BelowThreshold(job, n - 1);
    }
  }

  lemma NothingYet(store: Store, job: Job, plan: nat -> Attempt)
    ensures AllThrew(store, job, plan, 0)
  {
  }

  /** A job that leaves its attempts unstated gets its one dead letter only if the queue's own default is three. */
  lemma UnstatedAttemptsNeedThree(store: Store, job: Job, plan: nat -> Attempt, queueDefault: nat)
    requires job.attempts.None? && AllThrew(store, job, plan, Allowed(job, queueDefault))
    ensures |RunJob(store, job, plan, queueDefault, 0, []).dead| == 1
       <==> queueDefault == 3
  {
    hide Handle, OutcomeAt;
    RunJobResult(store, job, plan, queueDefault, 0);
    var n := Allowed(job, queueDefault);
    if n < MaxJobAttempts(job) {
      BelowThreshold(job, n);
    } else {
      PastThreshold(job, n);
    }
  }
}
