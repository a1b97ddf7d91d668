/**
 What single steps leave on a crawl task (`backend/app/repositories/crawl.py`,
 `backend/app/crawler/state.py`): the statuses and the moves between them seen from their targets, the
 notes and messages written, and from when on a task counts as stale.
 */
module TaskSteps {
  import opened CrawlTasks
  import opened Wrappers

  // ---------------------------------------------------------------- statuses

  /** Names tell statuses apart, and each status is waiting for a worker, worked on, under review or finished. */
  lemma StatusesAreDisjoint(a: Status, b: Status)
    ensures StatusName(a) == StatusName(b) <==> a == b
    ensures !(Claimable(a) && InWork(a)) && !(Claimable(a) && Finished(a)) && !(InWork(a) && Finished(a))
    ensures Claimable(a) || InWork(a) || Finished(a) <==> a != WaitingReview
  {
    NamesByLength(a);
    NamesByLength(b);
  }

  /** Names of one length are told apart by a letter. */
  lemma NamesByLength(s: Status)
    ensures |StatusName(s)| ==
      match s
      case Failed => 6
      case Queued => 6
      case Pending => 7
      case Running => 7
      case Completed => 9
      case Cancelled => 9
      case Normalizing => 11
      case CallingCoze => 12
      case CozeRunning => 12
      case PartialFailed => 14
      case WaitingReview => 14
      case SavingDocuments => 16
    ensures StatusName(s)[0] ==
      match s
      case Failed => 'f'
      case Queued => 'q'
      case Pending => 'p'
      case Running => 'r'
      case Completed => 'c'
      case Cancelled => 'c'
      case Normalizing => 'n'
      case CallingCoze => 'c'
      case CozeRunning => 'c'
      case PartialFailed => 'p'
      case WaitingReview => 'w'
      case SavingDocuments => 's'
    ensures StatusName(s)[1] == 'a' <==>
      s.Failed? || s.Cancelled? || s.CallingCoze? || s.PartialFailed? || s.WaitingReview? || s.SavingDocuments?
  {
  }

  /**
   The table from the side of its targets. Every unfinished task can fail, and be cancelled unless its
   documents are being saved; only what failed or was cancelled starts over; completed tasks stay so.
   */
  lemma MovesInto(source: Status)
    ensures Edge(source, Failed) <==> !Finished(source)
    ensures Edge(source, Cancelled) <==> !Finished(source) && source != SavingDocuments
    ensures Edge(source, Pending) <==> Finished(source) && source != Completed
    ensures Edge(source, Queued) <==> source == Pending
    ensures Edge(source, Running) <==> Claimable(source)
    ensures Edge(source, CallingCoze) <==> source == Queued || source == Running
    ensures Edge(source, CozeRunning) <==> source == CallingCoze
    ensures Edge(source, Normalizing) <==> source == CallingCoze || source == CozeRunning
    ensures Edge(source, SavingDocuments) <==> source == Running || source == Normalizing
    ensures Edge(source, WaitingReview) <==> source == SavingDocuments || source == PartialFailed
    ensures Edge(source, PartialFailed) <==> source == SavingDocuments || source == WaitingReview
    ensures Edge(source, Completed) <==>
      source == Running || source == SavingDocuments || source == WaitingReview || source == PartialFailed
  {
  }

  /** Only an advance can give a stage of its own: any other change of the status names the stage after it. */
  lemma StageFollowsStatus(row: TaskRow, event: Event)
    requires !event.Advance?
    ensures var next := Apply(row, event);
      && (next.status != row.status || (event.Discard? && row.status == Cancelled) ==>
            next.stage == StatusName(next.status))
      && (next.status == row.status && !event.Discard? && !event.Transition? && !event.Cancel? ==>
            next.stage == row.stage)
  {
    hide StatusName;
  }

  // ---------------------------------------------------------------- notes and messages

  /** What a cancel that takes effect, and a result discarded afterwards, leave on the task. */
  lemma CancelIsNoted(row: TaskRow, cancel: Event, discard: Event)
    requires cancel.Cancel? && cancel.expected == row.status && discard.Discard?
    ensures var cancelled := Apply(row, cancel);
      var noted := Apply(cancelled, discard);
      && cancelled.providerStatus == Some(cancel.provider) && cancelled.providerErrorMessage == cancel.providerError
      && cancelled.errorMessage.None? && cancelled.startedAt == row.startedAt && cancelled.counts == row.counts
      && cancelled.finishedAt == cancelled.completedAt == Some(cancel.now)
      && noted == cancelled.(providerStatus := Some(discard.provider))
  {
    hide StatusName;
  }

  /** What a recovery says of itself, whether it requeues the task or gives it up. */
  lemma RecoveryIsNoted(row: TaskRow, event: Event)
    requires event.Recover? && Stale(row, event.cutoff)
    ensures var next := Apply(row, event);
      if row.retryCount < event.maxAttempts then
        && next.status == Pending && next.errorMessage == Some("WORKER_LOST_RECOVERED")
        && next.providerStatus == Some("recovered_for_retry") && next.retryCount == row.retryCount + 1
      else
        && next.status == Failed && next.errorMessage == next.providerErrorCode == Some("WORKER_LOST_MAX_RECOVERIES")
        && next.providerErrorMessage == Some("Worker recovery attempts were exhausted")
        && next.finishedAt == next.completedAt == Some(event.now)
  {
    hide StatusName;
  }

  /** A retry is a reset that counts one attempt more; neither leaves a message or a provider status. */
  lemma RetryCountsOnce(row: TaskRow, now: int)
    requires Edge(row.status, Pending)
    ensures var reset, again := Apply(row, Transition(Pending, None, now)), Apply(row, Retry(now));
      && again == reset.(retryCount := row.retryCount + 1) && reset.retryCount == row.retryCount
      && reset.status == Pending && Fresh(reset) && reset.errorMessage.None? && reset.providerStatus.None?
  {
    hide StatusName;
  }

  /** A task that is closed by its last decision carries no error, no retry time and its provider as completed. */
  lemma ClosingIsNoted(row: TaskRow, event: Event)
    requires event.Reconcile? && row.status == WaitingReview
    ensures var next := Apply(row, event);
      next.status == Completed ==>
        && next.providerStatus == Some("completed") && next.errorMessage.None?
        && next.providerErrorCode.None? && next.providerErrorMessage.None? && next.nextRetryAt.None?
        && next.finishedAt == next.completedAt == Some(event.now)
    ensures var next := Apply(row, event);
      && next.counts.accepted == event.accepted && next.counts.rejected == event.rejected
      && (next.status == Completed <==> event.total > 0 && event.accepted + event.rejected >= event.total)
      && (next.status != Completed ==> next == row.(counts := next.counts))
      && next.counts == row.counts.(accepted := event.accepted, rejected := event.rejected,
                                    pendingReview := next.counts.pendingReview)
  {
  }

  // ---------------------------------------------------------------- tasks in work

  /** An advance or a report: what a worker does with a task between claiming and finishing it. */
  predicate WorkerStep(event: Event) {
    Allowed(event) && (event.Advance? || event.Record?)
  }

  lemma WorkerKeepsStart(row: TaskRow, event: Event)
    requires WorkerStep(event)
    ensures var next := Apply(row, event);
      next.startedAt == row.startedAt && next.completedAt == row.completedAt && next.errorMessage == row.errorMessage
  {
    hide StatusName;
  }

  lemma {:induction false} WorkKeepsStart(row: TaskRow, events: seq<Event>)
    requires forall i | 0 <= i < |events| :: WorkerStep(events[i])
    ensures var after := After(row, events);
      after.startedAt == row.startedAt && after.completedAt == row.completedAt && after.errorMessage == row.errorMessage
    decreases |events|
  {
    hide Apply, WorkerStep;
    if events != [] {
      assert forall i | 0 <= i < |events[1..]| :: events[1..][i] == events[i + 1];
      WorkerKeepsStart(row, events[0]);
      WorkKeepsStart(Apply(row, events[0]), events[1..]);
    }
  }

  /**
   A task claimed at some time and worked on since is stale exactly for the cutoffs after that time,
   while it is in work; and it carries no error message and no completion time.
   */
  lemma StaleSinceClaimExactly(row: TaskRow, now: int, events: seq<Event>, cutoff: int)
    requires Claimable(row.status) && forall i | 0 <= i < |events| :: WorkerStep(events[i])
    ensures var after := After(Apply(row, Claim(now)), events);
      && (Stale(after, cutoff) <==> InWork(after.status) && now < cutoff)
      && after.errorMessage.None? && after.completedAt.None?
  {
    hide StatusName, WorkerStep, After;
    WorkKeepsStart(Apply(row, Claim(now)), events);
  }

  /** The same of a task that a transition starts. */
  lemma StaleSinceStartExactly(row: TaskRow, now: int, events: seq<Event>, cutoff: int)
    requires Edge(row.status, Running) && forall i | 0 <= i < |events| :: WorkerStep(events[i])
    ensures var after := After(Apply(row, Transition(Running, None, now)), events);
      && (Stale(after, cutoff) <==> InWork(after.status) && now < cutoff)
      && after.errorMessage.None?
  {
    hide StatusName, WorkerStep, After;
    WorkKeepsStart(Apply(row, Transition(Running, None, now)), events);
  }
}
